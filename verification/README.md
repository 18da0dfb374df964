# Verified model of the transcription service

The service turns uploaded audio into speaker-labelled transcripts: an upload session is issued,
bytes arrive, one GPU job at a time normalizes, transcribes, diarizes and merges them, and the
result is cached per user and stored in a table shared by all users behind a row filter. This
project models the parts whose correctness spans many functions or many interleaved runs, and
proves properties of them for all inputs, all runs and all schedules.

`dafny verify dfyconfig.toml` checks everything.

| file | models |
|---|---|
| OrchestrationLock.dfy, GpuProtocol.dfy | the owner-tracking lock, and any number of `orchestrate` calls over it under an adversary that schedules, times out and cancels |
| RiffWalk.dfy | the RIFF chunk walk behind the content hash, with a printer and a splitter that are inverse |
| SpeakerCap.dfy, SpeakerMerge.dfy | capping speakers by relabel, midpoint lookup, majority vote |
| CacheStore.dfy, Pipeline.dfy, CacheHistory.dfy, CachedPipeline.dfy | the per-user cache, and the cached pipeline against recomputing |
| CachePurge.dfy, CacheEntries.dfy | the TTL purge of the cache tree, and the store's entries read from that tree |
| Scoping.dfy, UserTools.dfy | the listener that scopes every statement, and the per-user tools over one shared table |
| Sessions.dfy, UploadLifecycle.dfy, UploadDeadline.dfy, UploadHandlers.dfy, UploadPurge.dfy | upload sessions under overlapping handlers and purges; the purge stopped anywhere |
| JwksRefresh.dfy | the double-checked signing-key refresh |

## How the code is modelled

- Code that changes state is a class whose methods are proved against specification functions;
  the theorems are about those functions. Coroutines are step relations: one event is the code
  between two suspension points, and a run is any sequence of events.
- Time is `int` seconds or exact `real`; the clock never goes back. SHA-256, the two models and
  the probe are function parameters. Sizes of RIFF chunks are unsigned 32-bit by construction.
- Database rows keep table order; rows that tie in an ORDER BY stay in it.

## What turned out false, and exactly when it holds

- *The lock is free when nobody is inside `orchestrate`.* True exactly when no outside
  cancellation can surface between a successful `acquire` and `acquired = True`, and either no
  timeout can, or `wait_for` runs `acquire` in the calling task
  (`GpuProtocol.LockComesBackExactlyWhen`). The owner check at orchestrator.py:467 compares the
  owner with the caller, but before CPython 3.12 `wait_for` runs `acquire` in a task of its own,
  so on the interpreters `pyproject.toml` admits (3.10, 3.11) the check never recognises a late
  grant. Whether the runtime can produce one is an assumption of the model, not a claim.
- *A cached answer is what recomputing gives.* True, whatever the models are, exactly when
  requests of one user with one usable hash have equal samples, language and hints
  (`CachedPipeline.CacheIsTransparentExactlyWhen`): language and speaker hints are not in the key.
  For given models, exactly when requests with one key are worth the same
  (`CacheHistory.CacheAgreesExactlyWhen`).
- *A corrupt cache entry is a miss* (cache.py:10-13). True exactly of text that is not JSON, or is
  `null`. Bytes that are not UTF-8 raise out of `get`; text that parses to something else, `[1]` or
  `{}`, is returned like a hit and raises in the caller. Either way requests of that key are turned
  away until the entry is purged, overwritten with text that is not JSON, or rewritten by a request
  whose lookup missed (before the damage, or through an OSError) and not damaged again, exactly
  (`CacheHistory.DamageLastsExactlyWhen`).
- *A failed start stays retryable* (start.py:223-225). The row does stay `uploaded`, but the
  `finally` has removed the file, even when the answer was LOCK_BUSY with a retry hint. A retry can
  answer 200 exactly when an upload of the session was in flight with its bytes yet to be stored
  (`UploadHandlers.RetryCannotSucceed`); the session is lost for good exactly when, besides, no
  other start had already read them (`UploadLifecycle.FailedStartIsForGood`), and so always while
  operations on one session do not overlap (`UploadLifecycle.AloneIsForGood`).
- *One transcription per consumed session; consumed is final.* Each is true exactly when no commit
  lands on a session that is consumed by then (`UploadLifecycle.OneRowPerConsumedExactlyWhen`).
  *Status histories follow the design.* True exactly when every commit still finds the status its
  check found (`UploadLifecycle.LegalHistoriesExactlyWhen`). The updates carry neither guard. Both
  hold while operations on one session do not overlap (`UploadLifecycle.LegalHistories`). From a
  fresh service, two overlapping starts, or an upload that commits late, break all three
  (`UploadLifecycle.OverlappingStartsWriteTwoRows`, `UploadLifecycle.OverlappingUploadReopens`).
- *The purge recovers from a crash* (cleanup.py:145-155). True of the rows always; of the
  directories exactly when no stopped run removed what the last run is denied
  (`UploadPurge.PurgeIsCrashRecoverable`).
- *No purge over a consumed row, no handler over an expired one.* Holds however operations
  overlap if handlers commit by expiry plus grace, and that bound is exact
  (`UploadDeadline.LateCommitClashesExactlyWhen`).

## Model

| member | source | states |
|---|---|---|
| OrchestrationLock.Lock.Acquire | src/transcription_api/pipeline/orchestrator.py:80-95 | Whole new state for each way the inner acquire ends; a cancelled acquire leaves a coupled lock exactly as it found it, whoever holds it |
| OrchestrationLock.Lock.Release | src/transcription_api/pipeline/orchestrator.py:97-99 | The lock is free with no owner; reports whether the inner lock would have raised because nobody held it |
| OrchestrationLock.Lock.ReleaseIfMine | src/transcription_api/pipeline/orchestrator.py:462-469 | The timeout handler frees the lock only when this call is the recorded owner; any other hold is untouched |
| GpuProtocol.MutualExclusion | src/transcription_api/pipeline/orchestrator.py:458-508 | In every reachable state of any number of tasks, under every runtime: at most one call between grant and release, lock held iff owner recorded, takes minus frees is the hold |
| GpuProtocol.OutcomeAccounting | src/transcription_api/pipeline/orchestrator.py:458-508 | GPUBusy calls never entered the pipeline; returned, failed and timed-out calls entered, took and freed exactly once; no release ever raises; ended calls freed what they took when the runtime is leakproof |
| GpuProtocol.OutcomeTellsEnding | src/transcription_api/pipeline/orchestrator.py:458-508 | In every run: a call is outside iff it never moved or its last move ended it, and then its outcome tells that ending: GPUBusy iff a timeout of the wait, Cancelled iff an outside cancellation, returned, failed or timed out iff the pipeline was |
| GpuProtocol.ReleasesOnlyOwnHold | src/transcription_api/pipeline/orchestrator.py:31-34 | A step changes no other call, and frees the lock only when the stepping call's own runner is the owner; another's hold is unchanged |
| GpuProtocol.LockComesBackExactlyWhen | src/transcription_api/pipeline/orchestrator.py:454-469 | The lock is free with no owner whenever nobody is inside, in all reachable states of all task counts, iff no late cancellation and (inline acquire or no late timeout) |
| GpuProtocol.StrandedHold | src/transcription_api/pipeline/orchestrator.py:460-469 | In every other environment one task and three events leave the lock held with nobody inside |
| GpuProtocol.StrandedHoldStaysExactlyWhen | src/transcription_api/pipeline/orchestrator.py:458-469 | A hold stranded with nobody inside outlives any continuation, with nobody granted, iff it is recorded for a wrapped runner or its own task never queues again and times out |
| GpuProtocol.StepKeepsInv | src/transcription_api/pipeline/orchestrator.py:80-99 | Every enabled event keeps the protocol invariant |
| RiffWalk.FeedAll | src/transcription_api/pipeline/normalize.py:71-75 | Feeds everything from the cursor to the end, for every block size |
| RiffWalk.FeedBody | src/transcription_api/pipeline/normalize.py:116-125 | Feeds exactly the declared size, or what the file still has, for every block size |
| RiffWalk.FeedFirstData | src/transcription_api/pipeline/normalize.py:109-128 | The walk loop feeds what the recursive specification of the walk feeds; terminates on every file |
| RiffWalk.Sha256WavPcm | src/transcription_api/pipeline/normalize.py:78-129 | The digest is SHA-256 of the fed bytes of the file, for all bytes and all block sizes |
| RiffWalk.Sha256File | src/transcription_api/pipeline/normalize.py:60-75 | The digest is SHA-256 of the whole file, for all block sizes |
| RiffWalk.FedIsFirstDataPayload | src/transcription_api/pipeline/normalize.py:78-98 | Any valid chunks before (odd sizes padded) and any bytes after: exactly the first data chunk's payload is fed |
| RiffWalk.DigestIgnoresMetadata | tests/unit/test_main_lifespan_helpers.py:262-295 | Two files with equal samples and different metadata have equal digests |
| RiffWalk.EveryWaveIsPrinted | src/transcription_api/pipeline/normalize.py:109-128 | Every WAVE file, truncated or lying, is the print of its split, and the walk feeds the payload of what the split stops at |
| RiffWalk.SplitOfPrint | tests/unit/test_main_lifespan_helpers.py:228-259 | Splitting printed chunks gives the same chunks and the same rest back |
| RiffWalk.FedIsContiguous | src/transcription_api/pipeline/normalize.py:99-129 | On arbitrary bytes: the whole file when not WAVE, else one contiguous slice behind the header |
| RiffWalk.SizeAtIsLittleEndian | src/transcription_api/pipeline/normalize.py:115 | The size read is its four bytes weighted 1, 256, 65536 and 16777216 |
| RiffWalk.Le4IsLittleEndian | src/transcription_api/pipeline/normalize.py:115 | The printed size holds the base-256 digits of the length, least significant first |
| SpeakerCap.CapSpeakersByDuration | src/transcription_api/pipeline/diarize.py:196-242 | The loop and relabel compute the specified cap for every list and every maximum, zero and negative included |
| SpeakerCap.SumDurations | src/transcription_api/pipeline/diarize.py:216-218 | The dict maps each speaker heard to a total, in first-heard order |
| SpeakerCap.TotalsAreTalkTimes | src/transcription_api/pipeline/diarize.py:216-218 | The dict's value is the speaker's total talk time, defined independently |
| SpeakerCap.SortRanks | src/transcription_api/pipeline/diarize.py:225-227 | The sort ranks by total, ties by first heard |
| SpeakerCap.KeptIsTop | src/transcription_api/pipeline/diarize.py:223-229 | Exactly `max_speakers` speakers are kept, each ranked above everyone dropped |
| SpeakerCap.TalkAddsLengths | src/transcription_api/pipeline/diarize.py:216-218 | Talk time of any two parts of a list adds up, and one segment counts end minus start for its speaker only |
| SpeakerCap.KeptTalkMost | src/transcription_api/pipeline/diarize.py:199-207 | No set of that many heard speakers has more total talk time |
| SpeakerCap.KeptIsUnique | src/transcription_api/pipeline/diarize.py:223-228 | A set ranked above everyone outside it, ties to the first heard, is the kept set |
| SpeakerCap.CapRelabelsNearest | src/transcription_api/pipeline/diarize.py:231-242 | Length, order and times stay; kept segments stay; each other segment takes the label of the first kept segment with the nearest midpoint |
| SpeakerCap.CapSpeaksKept | src/transcription_api/pipeline/diarize.py:220-242 | When the cap fires the output's speakers are exactly the kept ones |
| SpeakerCap.CapLeavesExactlyWhen | src/transcription_api/pipeline/diarize.py:213-221 | The list comes back unchanged iff the maximum is not positive or no more speakers than that are heard |
| SpeakerCap.CapBoundsAndIsIdempotent | src/transcription_api/pipeline/diarize.py:213-242 | At most `max_speakers` speakers remain for a cap of at least one; capping again changes nothing |
| SpeakerCap.CapConservesTime | src/transcription_api/pipeline/diarize.py:237-242 | Total talk time is conserved; a kept speaker's total never falls when every segment has start <= end |
| SpeakerMerge.SpeakerForMidpoint | src/transcription_api/pipeline/merge.py:36-62 | Both phases together return the label of the first interval minimising the distance to the midpoint, overlapping and inverted intervals included |
| SpeakerMerge.ChosenIsMonotone | src/transcription_api/pipeline/merge.py:36-62 | On ordered intervals without overlap the chosen interval never moves back as the midpoint grows |
| SpeakerMerge.CountLabels | src/transcription_api/pipeline/merge.py:75-77 | The Counter holds every label's multiplicity in first-occurrence order |
| SpeakerMerge.MajoritySpeaker | src/transcription_api/pipeline/merge.py:65-81 | The counting loop returns the majority label |
| SpeakerMerge.MajorityIsMajority | src/transcription_api/pipeline/merge.py:70-73 | A label is the result iff no label is more frequent and equally frequent ones first occur later |
| SpeakerMerge.LabelWords | src/transcription_api/pipeline/merge.py:123-131 | Fails iff some word lacks a time; otherwise each word keeps its fields and gains its label |
| SpeakerMerge.AssignSpeakersToWords | src/transcription_api/pipeline/merge.py:84-140 | Fails iff some word of some segment lacks a time; otherwise equals the segment-by-segment merge |
| SpeakerMerge.LabelsComeFromDiarization | src/transcription_api/pipeline/merge.py:94-138 | Segment and words kept, one word spanning it standing in for none; every word carries the label of who speaks at its midpoint; the segment label comes from the diarization and is its words' majority |
| SpeakerMerge.WordsGetTheirSpeaker | src/transcription_api/pipeline/merge.py:36-62 | A word's label is that of the first interval with start <= mid <= end, else of the first whose nearer end is least away from mid; UNKNOWN for an empty diarization |
| SpeakerMerge.StoredSpeakersWithinCap | src/transcription_api/pipeline/orchestrator.py:308-326 | Capped at n >= 1, merged and voted, at most n distinct speakers are stored |
| CacheStore.Store.Read | src/transcription_api/pipeline/cache.py:69-79 | Hit, miss (absent, OSError while reading, not JSON), malformed hash, the decode error that escapes, or parsed text that is no payload, which the caller raises on |
| CacheStore.Store.Write | src/transcription_api/pipeline/cache.py:81-92 | Wherever it fails, readers of every key see the old entry; on success this key reads the new payload and all other keys are unchanged |
| CacheStore.Store.Delete | src/transcription_api/pipeline/cache.py:94-112 | Removes only this entry, which then reads as a miss; its directory goes with it iff an entry was unlinked, nothing was left beside it and rmdir is allowed; a denied unlink changes nothing |
| Pipeline.ComputeReadsOnly | src/transcription_api/pipeline/orchestrator.py:249-335 | Equal samples, language and hints give equal hash and equal computed payload, never marked as a cache hit |
| Pipeline.ComputedPayload | src/transcription_api/pipeline/orchestrator.py:254-335 | Worth something iff no model fails and every word has times; then: hash of the samples, heard language or else the asked one, the probe's duration, number of distinct non-empty labels and text of its own segments |
| Pipeline.ComputedSegments | src/transcription_api/pipeline/orchestrator.py:285-322 | Each stored segment is the transcribed one merged with the diarization, capped iff a maximum was asked for |
| Pipeline.TextOfConcat | src/transcription_api/pipeline/orchestrator.py:154-166 | The text of one segment is its label and text; the text of two runs of segments joins theirs by a newline |
| Pipeline.ComputeRespectsCap | src/transcription_api/pipeline/orchestrator.py:292-326 | With a cap of at least one the computed speaker count is within it |
| CacheHistory.CacheAgreesExactlyWhen | src/transcription_api/pipeline/orchestrator.py:235-383 | Over any set of requests: every history (purges, corruptions, faults, aborts) yields one row per success and answers equal to recomputing, cache flag aside, iff requests with one usable key are worth the same |
| CacheHistory.SecondAnswerDisagrees | src/transcription_api/pipeline/cache.py:65-67 | Two requests with one key and different worth: a four-event history whose answers disagree with recomputing |
| CacheHistory.FaultlessIsAnswered | src/transcription_api/pipeline/orchestrator.py:235-358 | In any history that never wrote non-UTF-8 bytes or a parseable non-payload under its key, a request with a valid hash and a computable worth is answered whenever it runs without a fault of its own |
| CacheHistory.AnswersAreSourced | src/transcription_api/pipeline/orchestrator.py:235-358 | In every history: one row per success; each answer carries its own hash and is worth what some request of that user and hash is worth; without the cache flag, what its own request is worth |
| CacheHistory.RequestOutcome | src/transcription_api/pipeline/orchestrator.py:235-400 | From its hash, entry and faults: a request is answered iff hit or computed and written, and flushed; one row then and none otherwise; flagged iff hit; only a written entry changes; aborted it leaves no trace |
| CacheHistory.DamageLastsExactlyWhen | src/transcription_api/pipeline/orchestrator.py:239-254 | Over any history from a damaged entry: its key is turned away at the end iff every purge, non-JSON overwrite or rewrite after a miss came before another damage; until the first of these no request of the key gets a new answer |
| CachedPipeline.Worker.ComputePayload | src/transcription_api/pipeline/orchestrator.py:254-335 | The staged computation yields the specified payload, or nothing on a model fault |
| CachedPipeline.Worker.RunPipeline | src/transcription_api/pipeline/orchestrator.py:235-400 | Files and answer are the specified ones; exactly one row on success, none otherwise |
| CachedPipeline.CacheIsTransparentExactlyWhen | src/transcription_api/pipeline/cache.py:65-67 | Over any set of requests: every history agrees with recomputing for every choice of models iff requests of one user with one usable hash have equal samples, language and hints |
| CachedPipeline.CoherentHistoriesAgree | src/transcription_api/pipeline/orchestrator.py:235-383 | In such histories every answer is what recomputing gives and no stored row exceeds its own request's cap, hit or miss |
| CachedPipeline.StoredRowsTell | src/transcription_api/pipeline/orchestrator.py:369-383 | In every history each row's count and text are those of its own segments, and its language, duration and sources those of a request of its user and hash; of its own request when not a cache hit |
| CachedPipeline.MetadataDoesNotSplitTheCache | src/transcription_api/pipeline/normalize.py:81-86 | Two files with equal samples and different metadata share a cache key and a worth |
| CachedPipeline.LanguageIsNotInTheKey | src/transcription_api/pipeline/cache.py:65-67 | An engine and two requests for one file in two languages share a key and differ in worth |
| CachePurge.CacheTree.SafeRmdir | src/transcription_api/pipeline/cleanup.py:46-53 | Removes an existing empty directory when it may be removed, otherwise nothing |
| CachePurge.CacheTree.Unlink | src/transcription_api/pipeline/cleanup.py:108-117 | Which of success, not found, denied and is-a-directory happens, and the new tree |
| CachePurge.CacheTree.Visit | src/transcription_api/pipeline/cleanup.py:92-124 | One candidate: deleted iff expired at the expected depth, parents tried, tree as specified |
| CachePurge.CacheTree.PurgeExpired | src/transcription_api/pipeline/cleanup.py:71-129 | In any candidate order: removes exactly the expired entries and emptied directories and returns their number; stops only at an old directory named result.json |
| CachePurge.DeleteOne | src/transcription_api/pipeline/cleanup.py:119-124 | Unlinking one entry and trying both parents is counting one more entry as deleted |
| CachePurge.DirectoryGoesExactlyWhen | src/transcription_api/pipeline/cleanup.py:120-124 | A directory goes iff it lies on a deleted entry's path, is left empty and its rmdir is allowed; the base never goes |
| CachePurge.PurgeKeepsTheRest | src/transcription_api/pipeline/cleanup.py:56-68 | A file survives iff it is not expired; everything left is unchanged and the tree stays well formed |
| CachePurge.PurgeIsIdempotent | src/transcription_api/pipeline/cleanup.py:82-106 | After a purge nothing is expired for the same cutoff |
| CacheEntries.UnexpiredReadsAsBefore | src/transcription_api/pipeline/cleanup.py:56-68 | `get` on the purged tree misses every expired key and answers every other key as before, failures included |
| CacheEntries.PurgeIsAnEvent | src/transcription_api/pipeline/cleanup.py:71-129 | A tree purge, whole or stopped, is the purge event of the cache histories: what `get` reads from the tree is what it reads from the store's files |
| Scoping.Session.RunBypassed | src/transcription_api/db/scoping.py:252-277 | A bypassed statement is never refused, reaches every user's rows, and restores the flags whatever they were |
| Scoping.Session.Run | src/transcription_api/db/scoping.py:144-174 | Executes the rewritten statement; refused statements leave the rows unchanged |
| Scoping.Session.Close | src/transcription_api/db/session.py:65-78 | Commits, or restores the rows from before; disarmed either way |
| Scoping.ListenerFailsClosed | src/transcription_api/db/scoping.py:144-174 | Per-user statement without bypass: refused iff no UUID is armed; else touches exactly that user's matching rows, other rows keep their place and value, and another user's rows stay iff none is handed over by assigning user_id |
| Scoping.BypassedIsWhole | src/transcription_api/db/scoping.py:144-160 | An insert, a bypass of session or statement, no mapper, or the users table: never refused and never narrowed |
| Scoping.TableOrderIsKept | src/transcription_api/db/scoping.py:174 | Rows are returned, kept and owned one by one in table order |
| Scoping.ArmedSeesOnlyOwn | src/transcription_api/db/scoping.py:174 | An armed statement touches, and leaves, the same own rows on the user's rows alone as on the whole table; alone nothing else is left iff it hands no row away |
| UserTools.DeleteTranscription | src/transcription_api/mcp/tools/delete.py:44-95 | Two scoped updates in one session equal the specified delete; no hit rolls back |
| UserTools.RequestUploadUrl | src/transcription_api/mcp/tools/upload.py:76-197 | Validation order, ownership check and insert equal the specified request |
| UserTools.CommandIsLocal | src/transcription_api/mcp/lookup.py:32-69 | Each tool's response and effect depend only on the caller's rows and change only them |
| UserTools.EveryUserLivesAlone | src/transcription_api/db/session.py:50-78 | In any interleaving of all users' calls, a user's responses and final rows are those of running only that user's calls on that user's rows |
| UserTools.NonInterference | src/transcription_api/db/scoping.py:144-174 | Two databases and call histories that agree on a user's rows and calls give that user the same responses and rows |
| UserTools.MissExactlyWhen | src/transcription_api/mcp/lookup.py:63-69 | Get and delete answer not-found iff the caller owns no live row with that id |
| UserTools.LoadUploadAnswers | src/transcription_api/mcp/tools/start.py:35-92 | No own audio upload with that id: not-found; more than one: internal error; the only one: consumed, found iff received and in time, else not-found |
| UserTools.GetAnswers | src/transcription_api/mcp/tools/get.py:36-68 | No own live transcription with that id: not-found; more than one: internal error; the only one is answered with exactly its own live images |
| UserTools.RequestUploadAnswers | src/transcription_api/mcp/tools/upload.py:76-197 | For every input which refusal is given, in the code's precedence, or that the upload is issued; an issued one adds exactly its row, a refused one nothing; images only for the caller's only live transcription |
| UserTools.DeleteTouchesOnlyIts | src/transcription_api/mcp/tools/delete.py:55-88 | A delete stamps exactly the caller's live transcription with that id and its own live images; every other row stays in its place as it was |
| UserTools.DeletedIsAMiss | src/transcription_api/mcp/tools/delete.py:37-83 | After a delete: get misses, deleting again misses and changes nothing, no own image of it is live |
| UserTools.EveryPageIsOfOneList | src/transcription_api/mcp/tools/list.py:56-94 | For limits 1 to 200, clamped to 100: a page is one list from its offset, at most its limit long, with its total; page after page is that whole list; any other limit, a negative offset or an unknown sort is refused |
| UserTools.PagesListEverything | src/transcription_api/mcp/tools/list.py:70-94 | That list is exactly the caller's live transcriptions, each once, newest, oldest or longest first as asked |
| UploadLifecycle.OneRowPerConsumedExactlyWhen | src/transcription_api/mcp/tools/start.py:95-104 | However operations overlap: exactly one transcription row stands for each consumed session and none for others iff no commit lands on a consumed session, and consumed is final iff the same |
| UploadLifecycle.OnlyAudioIsTranscribed | src/transcription_api/api/upload.py:118-126 | In every run, however operations overlap, only audio sessions are stored for transcription or transcribed |
| UploadLifecycle.LegalHistoriesExactlyWhen | src/transcription_api/mcp/tools/start.py:183-233 | However operations overlap: all status histories are legal paths iff every commit finds the status its check found |
| UploadLifecycle.StepKeepsInv | src/transcription_api/api/upload.py:175-184 | With one operation per session at a time every event leaves operations in flight with the status they checked, so every commit is guarded |
| UploadLifecycle.LegalHistories | src/transcription_api/mcp/tools/start.py:183-233 | While operations on one session do not overlap, every status history is a legal path and exactly one transcription row stands for each consumed session |
| UploadLifecycle.LegalPathsAreShort | src/transcription_api/mcp/tools/start.py:38-43 | On a legal path consumed and expired are last, and there are at most three statuses |
| UploadDeadline.GuardsAreComplements | src/transcription_api/pipeline/cleanup.py:172-186 | The handlers' grace check passes iff the purge's cutoff does not select the row |
| UploadDeadline.TimelyHandlersNeverClash | src/transcription_api/pipeline/cleanup.py:177-217 | However operations overlap, if handlers commit by expiry plus grace no purge overwrites consumed and no handler overwrites expired |
| UploadDeadline.LateCommitClashesExactlyWhen | src/transcription_api/mcp/tools/start.py:83-104 | From a fresh service, an upload or start checked in time and committed at w can be made to overwrite an expired row, in its log, iff w is past the deadline |
| UploadLifecycle.InFlightIsReachable | src/transcription_api/api/upload.py:113-184 | A fresh service reaches, by create, upload and check, the state with one checked and worked operation that the results on overlap start from |
| UploadLifecycle.OverlappingStartsWriteTwoRows | src/transcription_api/mcp/tools/start.py:95-104 | From a fresh service: two starts that both check before either commits write two rows for one session |
| UploadLifecycle.OverlappingUploadReopens | src/transcription_api/api/upload.py:175-184 | From a fresh service: an upload that checked early and commits late turns a consumed session back to uploaded |
| UploadLifecycle.FailedStartIsForGood | src/transcription_api/mcp/tools/start.py:223-233 | After a failed start the row is uploaded and the file is gone; no continuation, overlapping ones included, restores or transcribes it iff no other upload had yet to store its bytes and no other start had read them |
| UploadLifecycle.AloneIsForGood | src/transcription_api/mcp/tools/start.py:223-233 | While operations on one session do not overlap, a failed start loses the session in every continuation |
| UploadHandlers.StreamBody | src/transcription_api/api/upload.py:139-167 | Stores the whole body iff it fits the cap and no read or write raises; refuses it iff what was read does not fit; how it is cut into reads does not matter |
| UploadHandlers.FlattenKeepsOrder | src/transcription_api/api/upload.py:146-162 | The stored bytes are the chunks' in the order they came |
| UploadHandlers.UploadService.UploadAudio | src/transcription_api/api/upload.py:82-196 | Which of 200, 400, 401, 404, 413, 500 is answered, in the code's precedence, and the exact new state and files for each; a failed read or write removes the partial file, a failed commit leaves the file |
| UploadHandlers.UploadService.StartTranscription | src/transcription_api/mcp/tools/start.py:183-233 | Which of 200, 404, 409, 500, 503, 504 is answered and the exact new state and files for each; busy and timed-out starts remove the file too |
| UploadHandlers.RetryCannotSucceed | src/transcription_api/mcp/tools/start.py:223-233 | Once a start has failed, no later attempt on that session can answer 200, in any continuation, iff no upload of it was in flight with its bytes yet to be stored |
| UploadHandlers.PurgeRunsTheLifecycle | src/transcription_api/pipeline/cleanup.py:172-217 | The purge as a lifecycle operation marks the same rows and removes the same directories as the purge over rows and directories |
| UploadPurge.UploadStore.RemoveTree | src/transcription_api/pipeline/cleanup.py:189-201 | Removes the directory; when denied, exactly the files that cannot be removed stay in it |
| UploadPurge.UploadStore.PurgeExpiredUploadSessions | src/transcription_api/pipeline/cleanup.py:172-227 | In any row order: marks exactly the overdue requested and uploaded rows, removes their removable directories, returns the count |
| UploadPurge.PurgeIsCrashRecoverable | src/transcription_api/pipeline/cleanup.py:145-155 | Any number of runs stopped anywhere, each with its own denials, then one whole run: always the same rows as never stopping, and the same directories and leftover files iff no stopped run removed what the last one is denied |
| UploadPurge.OrphansComeOnlyFromDenial | src/transcription_api/pipeline/cleanup.py:189-217 | Stopped anywhere, no expired row has a directory; finished, the same iff no overdue directory was denied |
| UploadPurge.PassesTakeOnlyOverdue | src/transcription_api/pipeline/cleanup.py:183-217 | After any passes, stopped or whole, a row is expired iff it was pending and some whole pass found it overdue, else unchanged; a directory no pass found overdue is unchanged |
| UploadPurge.MarkingFirstLeaksExactlyWhen | src/transcription_api/pipeline/cleanup.py:151-155 | Marking before removing survives a stop in between iff there was nothing to remove |
| JwksRefresh.KeySet.FetchJwks | src/transcription_api/auth/oauth_client.py:147-184 | With anything happening in its two waits: both checks, the lock and the fetch are the protocol's steps in order; a returned document is the one cached then, forced or not; a failure is the endpoint's |
| JwksRefresh.KeySet.Conclude | src/transcription_api/auth/oauth_client.py:171-184 | The lock is freed in any case; only a successful answer is stored and stamped |
| JwksRefresh.SingleFlight | src/transcription_api/auth/oauth_client.py:167-184 | Under any interleaving, failures and cancellations at most one fetch is in flight |
| JwksRefresh.OneUnforcedRefreshPerWindow | src/transcription_api/auth/oauth_client.py:134-152 | An unforced successful fetch starts, and is stamped, at least TTL after every earlier success |
| JwksRefresh.NothingStaleIsServed | src/transcription_api/auth/oauth_client.py:147-170 | Every document handed out is younger than TTL; an unforced fetch in flight began at least TTL after the cached stamp |
| JwksRefresh.CacheIsLatestAnswer | src/transcription_api/auth/oauth_client.py:182-184 | In every run the cached document and stamp are those of the latest successful answer, forced or not |
| JwksRefresh.ServedIsLatestAnswer | src/transcription_api/auth/oauth_client.py:147-184 | Every document handed out is the latest successful answer there was at that moment, with its stamp |
| JwksRefresh.CancelledStaysOut | src/transcription_api/auth/oauth_client.py:167 | A caller cancelled while waiting never gets the lock or fetches, in any continuation, until it calls again |
| JwksRefresh.SuccessServesTheWaiters | src/transcription_api/auth/oauth_client.py:167-170 | Within TTL of a success every further request is a forced one, however many callers were waiting for the lock and whatever fails or is cancelled |

## Left out

- Library internals and foreign calls: ffmpeg, ffprobe, WhisperX, pyannote, SQLAlchemy, Postgres, the HTTP client, Microsoft sign-in. The models are deterministic functions of the samples, the language and the hints.
- Full-text search, resources, cookies, bearers, health, readiness, settings, migrations and magic-byte tables: they would add only easy members.
- Worker threads that outlive a cancelled job: exclusion is about coroutines in the locked region.
- Waiting order and liveness of the locks: any waiter may be granted next; no fairness is claimed.
- Statements over several entities, and statements with no mapper, which the listener does not see; `bypass_scoping` is modelled as a flag, not at each of its call sites.
- The models-not-loaded gate of `start_transcription`, and normalization failures, which end a request before the modelled pipeline begins.
- `upload_image` beyond its session lookup, grace check and status write: the image row, the byte sniffing and the blob path.
- Collisions: identifiers drawn at random are not checked for uniqueness on insert, and equal hashes are assumed to mean equal samples where a theorem says so.
- Floating point: talk times and midpoints are exact; the size cap `int(expected * 1.05)` is a given number; `processing_seconds` and the rounding of the stored duration are dropped.
- JSON text: a payload read back is the payload written; files hold a payload, text that parses and makes the request raise, text that is not JSON, or bytes that are not UTF-8. An altered entry that still serves as a payload is not considered.
- Other processes in the same directories: files vanish between steps only through the modelled events; OSErrors other than not-found and permission count as a stop.
- Creating the upload directory, and the unlink that cleans up after a failed read or write, do not fail themselves; the files of an upload directory are a flat set.
- Diarization output and word lists are values; the code builds new lists and never mutates its input.
- CachePurge.CacheTree.PurgeExpired: directory modification times are fixed during a run; they matter only for directories named result.json.
