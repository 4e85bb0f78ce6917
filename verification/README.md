# A model of gopdsdk's scheduler, codecs, store, analyzer engine and numeric cores

This project models six parts of the repository in Dafny and proves what they
promise. `dafny verify dfyconfig.toml` checks everything.

* **Cooperative scheduler** (`ScheduleModel`, `ScheduleInvariant`, `ScheduleOrder`, `ScheduleWait`,
  `ScheduleTally`, `ScheduleShort`, `ScheduleThroughput`, `ScheduleTight`, `ScheduleCadence`, `ScheduleDue`,
  `ScheduleSteps`, `ScheduleReport`, `ScheduleCalls`, `Scheduler`). A pure machine describes the slot table, the ring, the
  generations and the wrapping clock; the class `Scheduler` updates arrays in place and refines it. A step is user
  code: the environment supplies, for each run of each step, an arbitrary finite list of public calls made from inside
  it, and then its action. Clock readings are arbitrary too. All results hold for every environment.
* **Bounded JSON codec** (`Utf8`, `JsonModel`, `JsonGrammar`, `JsonComplete`, `JsonSound`, `JsonLayout`, `JsonEncode`,
  `JsonParser`, `JsonEncoder`). The reference is a grammar of syntax trees with the text they stand for (sections 2 to 8 of RFC 8259).
  The cursor-based parser and the streaming encoder are classes that refine position-based functions, which are compared
  with the grammar in both directions.
* **Versioned store** (`Envelope`, `StoreModel`, `StoreChain`, `StoreSafety`, `Store`). The disk is a map from paths to files. The
  outside world decides for every single operation whether it fails and how many bytes a read or write moves, and whether
  Rename overwrites. A crash is a suffix of failing operations.
* **Analyzer engine** (`ExecutorModel`, `ExecutorSafety`, `ExecutorOutcomes`, `ExecutorCancel`,
  `ExecutorResults`, `Executor`, `Incremental`, `Fixes`). The
  memoising executor is a set of goroutine stacks that take atomic steps over one table; the incremental engine is its
  version protocol and its least-recently-used cache; the edit applier is compared with a rendering defined offset by
  offset.
* **Analyzer graph algorithms** (`PathOrder`, `Reachability`, `CapabilityFlow`, `PanicFlow`, `BuildConstraint`). The
  shortest-witness fixpoint, the all-paths search, the path-sensitive worklist and the constraint enumeration, each over
  an abstract finite graph or expression.
* **Numeric cores** (`Samples`, `Diagnostics`, `Collision`). Histogram percentiles against sorted samples, and
  axis-separated movement with exact real coordinates.

## What the proofs found

* `Cancel` charges the current frame's `remaining` count for any entry of the ring (playdate/schedule/schedule.go:171):
  for one the frame still has to examine, which keeps the account straight, but also for one the frame has already put
  back and for one a step of this frame has just added. An Update without a time budget then ends with steps to spare
  and ready tasks waiting exactly when these late charges cover the entries it leaves (`ScheduleShort.ShortExactly`,
  `ScheduleShort.ServesAllExactly`). `ScheduleThroughput.CancelDelaysOthers` is a run of the first kind,
  `ScheduleTight.WaitIsTight` a family of runs of the second kind in which a ready task at position p needs all the
  p + 1 Updates that `ScheduleWait.BoundedWait` allows.
* With only a backup on disk, a Save whose first rename fails removes that backup (playdate/store/store.go:108).
  `StoreSafety.SaveSafeExactly` gives the exact starts from which Save cannot lose the value.
* Load takes any Stat error for a missing value (playdate/store/store.go:123-129). If a backup was left beside the value
  and Rename overwrites, a transient Stat failure brings the older payload back over an acknowledged newer one
  (`StoreSafety.AcknowledgedSaveLost`). `StoreSafety.LoadKeepsExactly` gives the exact disks on which this cannot happen.
* ScheduleAt refuses exactly the deadline that is 2^31 milliseconds ahead; one farther ahead counts as long past
  (`ScheduleCalls.ScheduleExactly`, playdate/schedule/schedule.go:126-132).
* `Fixes`: an insertion at the start of another edit counts as a conflict, one at its end does not.

## Model

| member | source | states |
|---|---|---|
| `ScheduleInvariant.DriveInv` | playdate/schedule/schedule.go:85-327 | Over every run of public calls, with steps that call back into the scheduler, the ring between frames is exactly the queued slots, without duplicates, and the bookkeeping is exact |
| `ScheduleInvariant.RunCallsInv` | playdate/schedule/schedule.go:217-290 | While a step runs its slot is queued but in no ring position; whatever the step calls, afterwards either its task is still current and its slot untouched, or the slot no longer carries that generation and the ring is whole again |
| `ScheduleInvariant.PendingCountsQueued` | playdate/schedule/schedule.go:134-176 | `pending` is the number of queued slots, the running one included |
| `ScheduleInvariant.FreeSlotExists` | playdate/schedule/schedule.go:141-161 | Below capacity a free slot always exists, so the ErrFull at line 161 is unreachable |
| `ScheduleInvariant.RoomToRequeue` | playdate/schedule/schedule.go:252-286 | While a task runs the ring has room for it, so putting it back overwrites no live entry |
| `ScheduleInvariant.ExamineInv` | playdate/schedule/schedule.go:237-286 | One turn of the update loop keeps the invariant and the popped slot is always queued, so the continue at line 241 is unreachable |
| `ScheduleInvariant.TakeTurnInv` | playdate/schedule/schedule.go:229-286 | The same for a whole loop round, budget check included |
| `ScheduleInvariant.IdentifyExact` | playdate/schedule/schedule.go:201-212 | A task identifier names its slot exactly while the slot is queued under that generation |
| `ScheduleInvariant.BumpNDiffers` | playdate/schedule/schedule.go:149-152 | A slot generation comes back only after 2^32 - 1 reuses, zero being skipped |
| `ScheduleInvariant.WithoutAt` | playdate/schedule/schedule.go:178-193 | On a ring without duplicates the filter deletes one position and moves nothing else out of order |
| `ScheduleOrder.UpdateOrder` | playdate/schedule/schedule.go:217-290 | One Update runs a subsequence of the ring it began with, in that order, each task at most once and none scheduled meanwhile, and takes at most StepsPerFrame steps; what it ran followed by the entries it left unexamined is such a subsequence too, and `remaining` ends as their number less the charges |
| `ScheduleOrder.CancelBackKept` | playdate/schedule/schedule.go:166-176 | Cancelling an entry behind those still to be examined charges `remaining` by one and takes none of them |
| `ScheduleOrder.CancelFrontKept` | playdate/schedule/schedule.go:166-176 | Cancelling an entry still to be examined takes that entry, and only it, from them and from `remaining` |
| `ScheduleOrder.NestedCallKept` | playdate/schedule/schedule.go:166-176 | Every call a step can make keeps the equality of `remaining` with the number of entries still to be examined less the charges, and lets no new entry among them |
| `ScheduleWait.UpdateWaits` | playdate/schedule/schedule.go:217-290 | One Update brings a ready waiting task at least one position forward, or serves it, whatever other steps do |
| `ScheduleWait.BoundedWait` | playdate/schedule/schedule.go:217-290 | A ready task at ring position p runs or is cancelled within p + 1 top-level Update calls, unless everything is terminated |
| `ScheduleShort.ShortExactly` | playdate/schedule/schedule.go:229-286 | The exact condition: an Update without a time budget that ends without an error, with steps to spare, leaves some entry unexamined if and only if it charged `remaining` at least once for each entry it left |
| `ScheduleShort.UnservedExactly` | playdate/schedule/schedule.go:217-290 | A task ready throughout one Update is left unserved if and only if it ends among the entries the Update left unexamined |
| `ScheduleShort.LeftUnserved` | playdate/schedule/schedule.go:217-290 | Entries left unexamined were neither run nor cancelled |
| `ScheduleShort.ServesAllExactly` | playdate/schedule/schedule.go:217-290 | With all tasks ready, steps for all of them and no invalid delay, an Update serves every task if and only if its charges do not cover the entries it leaves |
| `ScheduleShort.UnservedMeansCharged` | playdate/schedule/schedule.go:217-290 | A ready task within reach of the steps is left unserved by one Update only when the charges cover the entries left |
| `ScheduleThroughput.PromptWait` | playdate/schedule/schedule.go:217-290 | Without a time budget or an invalid delay, a ready task at position p is served within p / StepsPerFrame + 1 Update calls, or everything is terminated, as long as no Update stops short in the sense of ShortExactly |
| `ScheduleThroughput.NoLateCancelsNeverShort` | playdate/schedule/schedule.go:166-176 | No Update stops short while no step cancels an entry that the same frame has put back or added |
| `ScheduleThroughput.CancelDelaysOthers` | playdate/schedule/schedule.go:166-176 | A run from a new scheduler in which a step cancels a task that already ran in this frame and the Update stops before a third ready task: Cancel charges `remaining` for a re-queued entry |
| `ScheduleTight.WaitIsTight` | playdate/schedule/schedule.go:141-176 | The p + 1 bound is attained for every p and every StepsPerFrame: a run from a new scheduler in which steps add tasks and cancel them again, and a ready task at position p is still unserved after p Updates |
| `ScheduleCadence.RepeatCadence` | playdate/schedule/schedule.go:265-280 | As long as a task keeps returning valid Repeats, each run is due at the first due time plus the sum of the intervals before it, modulo 2^32, however late it ran |
| `ScheduleDue.RunsAreOnTime` | playdate/schedule/schedule.go:112-290 | In every run from a new scheduler a step runs only when a clock reading has passed its due time, and that time is the one the last event about its slot fixed; a slot is queued exactly when its last event fixes one, and marked repeating exactly when that is a Repeat |
| `ScheduleDue.NextRun` | playdate/schedule/schedule.go:112-280 | A task that was queued or ran and runs next is due: at the reading or deadline its scheduling call went by; after Delay its delay past the reading that follows its step's calls; after Repeat its interval past its former due time; after Yield at the reading that found it due |
| `ScheduleDue.EndedIsDead` | playdate/schedule/schedule.go:261-275 | After Complete, an invalid delay or a cancellation the identifier names nothing and the task never runs again |
| `ScheduleDue.ReachedExactly` | playdate/schedule/schedule.go:333-335 | The wrapping comparison: due means less than 2^31 milliseconds past |
| `ScheduleDue.RunCallsTicks` | playdate/schedule/schedule.go:112-132 | A step's calls read the clock once for every scheduling call whose delay is not refused |
| `ScheduleSteps.RunsTheirSteps` | playdate/schedule/schedule.go:149-315 | In every run from a new scheduler each run executes the step that the call brought which queued the task in its slot, as the next of all runs, and returns that step's action; a slot without a task holds no step, so released closures are not retained |
| `ScheduleReport.UpdateReport` | playdate/schedule/schedule.go:217-290 | What Update reports, told from the log: the exact reasons for ErrTerminated and ErrDelay, the pending count as a conservation law with the completed tasks, and the budget: exhausted exactly when it stops with steps to spare and entries to examine, a reading having passed the budget, which no later step than the first does |
| `ScheduleCalls.ScheduleExactly` | playdate/schedule/schedule.go:112-162 | A scheduling call succeeds exactly when its time is in the horizon, nothing is terminated, the step is not nil and a slot is free; then the first free slot holds the new task under the returned identifier and everything else is as before |
| `ScheduleCalls.CancelExactly` | playdate/schedule/schedule.go:166-212 | Cancel answers whether the identifier names a task, and takes exactly that task out of its slot and the ring |
| `Schedulers.Scheduler.New` | playdate/schedule/schedule.go:99-109 | New rejects exactly the invalid configurations and otherwise starts empty |
| `Schedulers.Scheduler.constructor` | playdate/schedule/schedule.go:99-109 | The fresh object represents the initial machine state |
| `Schedulers.Scheduler.Push` | playdate/schedule/schedule.go:316-320 | Appends to the ring held in the circular buffer |
| `Schedulers.Scheduler.Pop` | playdate/schedule/schedule.go:322-327 | Takes the ring's first entry |
| `Schedulers.Scheduler.RemoveQueued` | playdate/schedule/schedule.go:178-193 | The in-place compaction of the circular buffer is the order-preserving filter of the ring, and it reports whether anything was removed |
| `Schedulers.Scheduler.Release` | playdate/schedule/schedule.go:306-314 | Frees a slot as the machine does |
| `Schedulers.Scheduler.Pending` | playdate/schedule/schedule.go:196-199 | Answers whether the identifier is live |
| `Schedulers.Scheduler.ScheduleAtDeadline` | playdate/schedule/schedule.go:134-162 | The slot scan refines the machine's enqueue, results and errors included |
| `Schedulers.Scheduler.Schedule` | playdate/schedule/schedule.go:112-114 | Refines the machine, reading the clock once |
| `Schedulers.Scheduler.ScheduleAfter` | playdate/schedule/schedule.go:117-122 | Refines the machine, including the delay bound |
| `Schedulers.Scheduler.ScheduleAt` | playdate/schedule/schedule.go:126-132 | Refines the machine, including the 2^31 horizon |
| `Schedulers.Scheduler.Cancel` | playdate/schedule/schedule.go:166-176 | Refines the machine: ring, pending and the frame's remaining count |
| `Schedulers.Scheduler.Terminate` | playdate/schedule/schedule.go:294-304 | Refines the machine: everything is released at once, also from inside a step |
| `Schedulers.Scheduler.MakeCalls` | playdate/schedule/schedule.go:252-258 | The calls a running step makes on the same object refine the machine's |
| `Schedulers.Scheduler.Apply` | playdate/schedule/schedule.go:261-285 | What Update does with each kind of action refines the machine |
| `Schedulers.Scheduler.RunStep` | playdate/schedule/schedule.go:250-286 | Running a due task with arbitrary re-entrant calls refines the machine |
| `Schedulers.Scheduler.TurnOnce` | playdate/schedule/schedule.go:229-286 | One loop round refines the machine |
| `Schedulers.Scheduler.Update` | playdate/schedule/schedule.go:217-290 | Update refines the machine; a nested Update changes nothing and reports that one is running |
| `Utf8.EncodeThenRead` | playdate/json/json.go:326-408 | Every scalar value is written as one well-formed UTF-8 character that reads back as itself (section 4 of RFC 3629) |
| `Utf8.ReadThenEncode` | playdate/json/json.go:326-387 | The well-formed characters are exactly the encodings of scalar values |
| `Utf8.EncodeOrdered` | playdate/json/json.go:326-408 | The encodings are in the order of the characters' numbers, so that they are the only encodings of their kind |
| `JsonComplete.DecodeComplete` | playdate/json/json.go:146-469 | Every document of the RFC 8259 grammar that fits the limits is accepted, with the value its syntax tree denotes |
| `JsonSound.DecodeSound` | playdate/json/json.go:146-469 | Whatever is accepted is a document of the grammar, denotes the result, and fits the byte, depth, node and string limits |
| `JsonSound.DecodeExact` | playdate/json/json.go:146-469 | The exact language: a value is returned if and only if the document has a syntax tree denoting it and it fits the limits, zero standing for the defaults; the error for limits is the one for negative limits |
| `JsonSound.Unambiguous` | playdate/json/json.go:203-469 | A document denotes one value only |
| `JsonSound.PairDecodes` | playdate/json/json.go:388-408 | The two escapes of any scalar beyond the basic plane, in either letter case, decode to its UTF-8 encoding |
| `JsonGrammar.CombineExactly` | playdate/json/json.go:402 | The arithmetic of surrogate pairs inverts the halving that defines them |
| `JsonGrammar.Characters` | playdate/json/json.go:193-469 | The bytes the decoder looks for are the characters of the grammar |
| `JsonEncode.EncodesExactly` | playdate/json/encode.go:56-137 | The encoder succeeds exactly on values of valid kinds, number texts and UTF-8 strings no deeper than its limit |
| `JsonEncode.EncodeLayout` | playdate/json/encode.go:16-188 | Encode writes the text of the one tree that lays the value out: each item of a pretty list on its own line with its depth in indents, one space behind a pretty colon, no white space in compact output, and exactly the escapes it must write |
| `JsonEncode.EncodeExactly` | playdate/json/encode.go:16-137 | Encode succeeds exactly on encodable values within the depth limit, 32 by default; the error for limits is the one for a negative limit |
| `JsonEncode.EncodedSyntax` | playdate/json/encode.go:42-188 | With a blank indent what the encoder writes for a value is the text of a syntax tree that denotes the value |
| `JsonEncode.RoundTrip` | playdate/json/encode.go:16-193 | Decoding what was encoded, compact or with any blank indent, gives the value back with its member order and duplicate names; unused fields are what may differ |
| `JsonEncode.DepthLimitsAgree` | playdate/json/encode.go:56-137 | With equal depth limits the encoder accepts exactly the encodable values within the decoder's depth |
| `JsonEncode.DecodedReencodes` | playdate/json/json.go:146-165 | An accepted document's value re-encodes under the same depth limit, and what is then written decodes to the same value |
| `JsonEncode.CanonCosts` | playdate/json/encode.go:56-137 | Dropping the fields a kind does not use changes no depth, node or string cost |
| `JsonParser.Parser.Space` | playdate/json/json.go:193-202 | Skips exactly the white space |
| `JsonParser.Parser.Hex4` | playdate/json/json.go:409-430 | Reads four hexadecimal digits or fails, in the reference's way |
| `JsonParser.Parser.Unicode` | playdate/json/json.go:388-408 | Reads an escape, with a surrogate pair when there is one, and fails on unpaired surrogates |
| `JsonParser.Parser.String` | playdate/json/json.go:326-387 | The string loop computes the reference scan, with the byte limit |
| `JsonParser.Parser.Number` | playdate/json/json.go:431-469 | The number scan computes the reference scan |
| `JsonParser.Parser.Value` | playdate/json/json.go:203-241 | Refines the reference parser at every depth and node count |
| `JsonParser.Parser.Array` | playdate/json/json.go:249-278 | Refines the reference element loop |
| `JsonParser.Parser.Object` | playdate/json/json.go:279-318 | Refines the reference member loop |
| `JsonParser.DecodeBytes` | playdate/json/json.go:146-165 | The cursor-based decoder returns exactly what the reference decoder does |
| `JsonEncoder.Encoder.NewLine` | playdate/json/encode.go:42-55 | Writes the line break and indent of the reference, or has lost a write |
| `JsonEncoder.Encoder.String` | playdate/json/encode.go:138-188 | Writes exactly the escaped text, in pieces, or has lost a write |
| `JsonEncoder.Encoder.Value` | playdate/json/encode.go:56-137 | Writes exactly the reference text of the value, fails exactly when the reference does, or has lost a write |
| `JsonEncoder.Encoder.Array` | playdate/json/encode.go:56-137 | The same for an array |
| `JsonEncoder.Encoder.Object` | playdate/json/encode.go:56-137 | The same for an object |
| `JsonEncoder.Encoder.CheckNumber` | playdate/json/encode.go:189-193 | Accepts exactly the number texts |
| `JsonEncoder.EncodeTo` | playdate/json/encode.go:16-28 | With a writer that takes everything Encode succeeds exactly when the reference has a text, and has then written that text, which is that of the tree that lays the value out; whatever the writer does, no more than a beginning of the text is written, and a lost write is reported as such |
| `Envelope.DecodeExact` | playdate/store/codec.go:10-37 | decode accepts exactly the byte strings encode produces for a nonzero version and an allowed size, and returns what went in |
| `Envelope.SubstitutionDetected` | playdate/store/codec.go:10-60 | Substituting one byte of an envelope is rejected if and only if it is not a change of the version to another nonzero one; what is still accepted carries the same payload |
| `Envelope.OneByteChangesFold` | playdate/store/codec.go:53-60 | Substituting one payload byte always changes the checksum |
| `Envelope.StepInjectiveInState` | playdate/store/codec.go:55-58 | A checksum step is injective in the state |
| `Envelope.StepInjectiveInOctet` | playdate/store/codec.go:55-58 | A checksum step is injective in the octet |
| `Envelope.AtThenPut` | playdate/store/codec.go:39-51 | Reading four bytes as a number and writing it back is the identity |
| `Envelope.EnvelopeFormat` | playdate/store/codec.go:10-18 | The format: GPDS, then version, length and checksum as little-endian numbers, then the payload |
| `Envelope.ChecksumVectors` | playdate/store/codec.go:53-60 | The checksum has the published FNV-1a values |
| `Envelope.ComputeChecksum` | playdate/store/codec.go:53-60 | The accumulator loop computes the checksum that the envelope theorems are about |
| `Envelope.PutUint32` | playdate/store/codec.go:39-44 | Replaces exactly four bytes in place by the little-endian number |
| `Envelope.EncodeBytes` | playdate/store/codec.go:10-18 | Filling the buffer in place produces the envelope |
| `StoreSafety.SaveThenLoad` | playdate/store/store.go:77-202 | From a stored value, after a Save with failures or a crash at any operations, the next Load returns exactly the old or the new payload, and the new one when Save reported success |
| `StoreSafety.SaveSafe` | playdate/store/store.go:77-118 | Whatever fails during Save, the old or the new file is what is left; success means the new file is in place |
| `StoreSafety.SaveSafeExactly` | playdate/store/store.go:104-117 | The exact condition: Save keeps the old or the new value under every behaviour of the file system if and only if the value is in place, no backup exists, the payload is too large, or the temporary cannot be written |
| `StoreSafety.BackupLost` | playdate/store/store.go:104-110 | From a start with only the backup some behaviour loses the value: the first rename fails and line 108 removes the backup |
| `StoreSafety.PublishWithoutValue` | playdate/store/store.go:104-110 | With no value in place publishing succeeds exactly if the first rename does, and otherwise leaves nothing exactly if the backup's removal succeeds |
| `StoreSafety.SaveReliable` | playdate/store/store.go:77-118 | Without failures Save succeeds on both kinds of Rename, with short writes, and leaves neither temporary nor backup |
| `StoreSafety.SaveRollsBack` | playdate/store/store.go:77-118 | After a Save that fails the old value is in place again, unless its very last operation failed too |
| `StoreSafety.LoadHonest` | playdate/store/store.go:122-202 | Whatever fails during Load, a payload it returns is the one the file it settled on stands for, and the disk then stands for that payload |
| `StoreSafety.LoadValue` | playdate/store/store.go:122-202 | After Load the disk stands for the value of the file Load settled on |
| `StoreSafety.LoadKeepsExactly` | playdate/store/store.go:123-136 | The exact condition: Load keeps the stored value under every failure if and only if Rename refuses to overwrite, or no backup with another value lies beside the value |
| `StoreSafety.AcknowledgedSaveLost` | playdate/store/store.go:104-136 | A concrete run for any two payloads: an acknowledged Save is undone by the next Load when a rename, the removal of the backup and a Stat fail |
| `StoreSafety.LoadReliable` | playdate/store/store.go:122-202 | Without failures Load returns exactly what the file stands for: an envelope's payload that fits, carried to the current version by a chain of the configured migrations, or the error of the first link that is missing, fails or outgrows the limit |
| `StoreSafety.LoadPersists` | playdate/store/store.go:171-201 | A Load without failures leaves its result stored under the current version, migrated or not, and no backup |
| `StoreSafety.NodeValueExactly` | playdate/store/store.go:167-197 | The value of a file is exactly the relation: its envelope's payload, migrated link by link |
| `StoreSafety.FirstReadDecides` | playdate/store/store.go:144-166 | A Read that delivers everything is forgiven its error; otherwise a runtime failure is passed on and any other, or no progress, means a corrupt value |
| `StoreChain.UpgradeExactly` | playdate/store/store.go:178-197 | The loop's result is exactly that of the chain: each payload is what the one migration from its version returns for the one before |
| `StoreChain.OneResult` | playdate/store/store.go:178-197 | Migrating has one result |
| `StoreSafety.LoadRetry` | playdate/store/store.go:122-202 | A Load interrupted anywhere, even while persisting a migration, returns the same migrated payload when retried |
| `StoreSafety.LoadIgnoresTemporary` | playdate/store/store.go:122-202 | Load's result and its effect elsewhere do not depend on what an unfinished Save left in the temporary |
| `StoreSafety.SavedValue` | playdate/store/store.go:77-81 | A saved file stands for its payload |
| `StoreSafety.UpgradeFits` | playdate/store/store.go:178-197 | A migration chain never produces a payload beyond the size limit |
| `StoreSafety.RunSafe` | playdate/store/store.go:77-202 | Over every run of Saves and Loads with failures, crashes and retries anywhere, each Save beginning in one of the starts of SaveSafeExactly, each successful Load returns the payload of the last acknowledged Save or of an unacknowledged one after it |
| `StoreModel.NamesDiffer` | playdate/store/store.go:57-62 | Value, temporary and backup are three different paths |
| `Stores.Store.New` | playdate/store/store.go:42-66 | Rejects exactly the invalid configurations: zero version, size bounds, migrations out of range or repeated |
| `Stores.Store.WriteAll` | playdate/store/store.go:86-94 | The write loop with short writes does what the protocol model says |
| `Stores.Store.WriteTemporary` | playdate/store/store.go:82-103 | Open, write, flush and close do what the model says, reporting the first error |
| `Stores.Store.Publish` | playdate/store/store.go:104-117 | Rename, backup swap and roll-back do what the model says |
| `Stores.Store.Save` | playdate/store/store.go:77-118 | Save does what the model says to the disk and reports what it says |
| `Stores.Store.Locate` | playdate/store/store.go:123-136 | Stat and recovery do what the model says |
| `Stores.Store.ReadAll` | playdate/store/store.go:144-153 | The read loop with short reads delivers a prefix of the file and fails exactly when the model does |
| `Stores.Store.ReadValue` | playdate/store/store.go:137-166 | Bounds, reading and the treatment of read errors do what the model says |
| `Stores.Store.Upgrade` | playdate/store/store.go:178-197 | The migration loop's result is that of the chain of configured migrations |
| `Stores.Store.Load` | playdate/store/store.go:122-202 | Load does what the model says to the disk; a payload it returns is what the file it settled on stands for, migrations included |
| `ExecutorResults.RunsAtMostOnce` | internal/features/analyzer/registry.go:248-265 | Under every interleaving each analyzer and package pair is started at most once, and its pass runs at most once |
| `ExecutorResults.OneResult` | internal/features/analyzer/registry.go:248-265 | All callers of one pair receive the one stored result |
| `ExecutorResults.ResultsAreFinal` | internal/features/analyzer/registry.go:237-265 | A stored result never changes afterwards |
| `ExecutorResults.PassAfterDependencies` | internal/features/analyzer/registry.go:267-318 | When a pass is about to run, its required passes and, for a fact analyzer that traverses imports, its imports' passes have completed without error, and it is given their stored values |
| `ExecutorResults.NoDeadlock` | internal/features/analyzer/registry.go:248-265 | For acyclic requirements and imports no reachable state is deadlocked |
| `ExecutorResults.SomeEnabled` | internal/features/analyzer/registry.go:251-255 | From any blocked goroutine the owners of what it waits for lead down to one that can move |
| `ExecutorResults.RunsAreBounded` | internal/features/analyzer/registry.go:248-318 | For acyclic graphs every interleaving is finite, within a bound known at the start |
| `ExecutorOutcomes.ResultsAreJustified` | internal/features/analyzer/registry.go:260-318 | Under every interleaving a stored result is what the pair's one pass returned; or no pass ran, and the context was cancelled, or the first failing dependency is named, or an ill-typed package was skipped after all dependencies had succeeded |
| `ExecutorCancel.AfterCancellation` | internal/features/analyzer/registry.go:247-271 | In any interleaving, a pair that nobody has begun when the context is cancelled never runs an analyzer, and its result is Cancelled |
| `ExecutorOutcomes.TakeOutcomes` | internal/features/analyzer/registry.go:248-318 | Every atomic step keeps all results justified |
| `ExecutorResults.RootsHaveResults` | internal/features/analyzer/registry.go:161-180 | When all goroutines have returned, every root pair and every pair that was started has its result, justified in that sense, and result returns what the callers got |
| `ExecutorSafety.TakeInv` | internal/features/analyzer/registry.go:248-318 | Every atomic step keeps the invariant: each pending execution has exactly one running frame, stacks follow dependency edges, and completed dependencies stay completed |
| `ExecutorSafety.RunInv` | internal/features/analyzer/registry.go:248-318 | The invariant holds after every interleaving |
| `Executors.Executor.Run` | internal/features/analyzer/registry.go:161-171 | Goroutines moving in any order, with any outcomes and cancellation, on one shared table, always finish, and every root pair then has its result, which is what its pass returned or says why none ran; each move of the object is a step of the machine the other results are about |
| `Reachability.Witnesses` | internal/features/analyzer/device_reachability.go:93-115 | For every order of iteration the fixpoint terminates, with exactly the least call chain, by length and then joined text, for each function and rule that has a chain to a forbidden feature |
| `Reachability.ExactUnique` | internal/features/analyzer/device_reachability.go:99-115 | The result does not depend on the order of iteration |
| `Reachability.ChainsMatched` | internal/features/analyzer/device_reachability.go:99-115 | In a settled state every call chain is matched by a recorded path that is at most as great |
| `Reachability.SettledExact` | internal/features/analyzer/device_reachability.go:99-115 | A settled state holds exactly the least chains |
| `Reachability.ImprovedCorrect` | internal/features/analyzer/device_reachability.go:106-111 | Each update records a genuine chain and never a greater path than before |
| `Reachability.ImprovedNearer` | internal/features/analyzer/device_reachability.go:106-111 | Each change lowers a well-founded measure |
| `Reachability.LookAtRule` | internal/features/analyzer/device_reachability.go:106-111 | One comparison and assignment: changes bring the fixpoint nearer, and no change means this call is settled for the rule |
| `PathOrder.PrependMonotone` | internal/features/analyzer/device_reachability.go:106-107 | Prepending a name to two paths keeps their order |
| `PathOrder.BeforeExactly` | internal/features/analyzer/device_reachability.go:320-328 | The order on joined texts is the lexicographic one: the first difference decides, and a beginning comes first |
| `PathOrder.ChooseLesser` | internal/features/analyzer/device_reachability.go:320-328 | The choice is the lesser of the two paths |
| `PathOrder.JoinTellsChange` | internal/features/analyzer/device_reachability.go:108 | Comparing joined texts tells exactly whether the path changed |
| `PathOrder.JoinInjective` | internal/features/analyzer/device_reachability.go:108 | The joined text determines a path of known length |
| `Fixes.PrepareFile` | internal/features/analyzer/fixes.go:73-115 | A file is rejected for a bad range, or exactly when two distinct edits overlap or share a start; otherwise every edited range is replaced once and every other byte is kept in order |
| `Fixes.OutcomeUnique` | internal/features/analyzer/fixes.go:73-115 | The outcome depends only on the set of edits, not on their order or repetition |
| `Fixes.PointOffset` | internal/features/analyzer/fixes.go:134-153 | Accepts exactly the points of the offsets 0 to the length, and returns the offset |
| `Fixes.PointSteps` | internal/features/analyzer/fixes.go:134-153 | The first offset is line 1, column 1; behind a line feed a line begins, behind any other byte the next column |
| `Fixes.PointOfInjective` | internal/features/analyzer/fixes.go:134-153 | Different offsets have different points |
| `Fixes.Compact` | internal/features/analyzer/fixes.go:94-106 | The in-place filter succeeds exactly when no two edits conflict, and leaves each distinct edit once, in order and apart |
| `Fixes.Splice` | internal/features/analyzer/fixes.go:107-114 | The cursor loop renders exactly the per-offset reference |
| `Fixes.RenderEdit` | internal/features/analyzer/fixes.go:109-113 | One edit ahead of the others contributes its text in place of its range |
| `Fixes.ApartCompatible` | internal/features/analyzer/fixes.go:101-103 | Comparing neighbours of the sorted list suffices: no other pair conflicts |
| `Fixes.Resolve` | internal/features/analyzer/fixes.go:75-83 | An edit resolves to a byte range exactly when both points exist in order |
| `Fixes.SortSorts` | internal/features/analyzer/fixes.go:85-93 | Sorting orders the edits by start and keeps exactly them |
| `CapabilityFlow.RequiresCapability` | internal/features/analyzer/capability_flow.go:206-269 | True if and only if there are blocks and facts, no reachable cycle, every reachable return is accepted, and at most 256 blocks are reachable |
| `CapabilityFlow.Search.Visit` | internal/features/analyzer/capability_flow.go:228-267 | A visit that succeeds finishes the block with all it reaches; one that fails refutes the requirement |
| `CapabilityFlow.FinishedProves` | internal/features/analyzer/capability_flow.go:265-266 | A finished entry in post-order within the budget proves the requirement |
| `CapabilityFlow.ActiveRefutes` | internal/features/analyzer/capability_flow.go:232-234 | Meeting an active block shows a reachable cycle |
| `CapabilityFlow.ExhaustedRefutes` | internal/features/analyzer/capability_flow.go:232-234 | An exhausted budget shows more than 256 reachable blocks |
| `PanicFlow.ReportPendingDeferPanic` | internal/features/analyzer/device_source_rules.go:43-84 | The worklist ends after at most two visits per block and reports a panic exactly when some control-flow path from the entry reaches it with a defer passed before |
| `PanicFlow.ReportsAreExposed` | internal/features/analyzer/device_source_rules.go:58-79 | Every report is justified by a path |
| `PanicFlow.ArrivalsSeen` | internal/features/analyzer/device_source_rules.go:51-82 | When the queue is empty every path's arrival state has been visited |
| `PanicFlow.Scan` | internal/features/analyzer/device_source_rules.go:58-79 | One block reports its panics behind a defer or a pending one, and tells whether a defer is pending after it |
| `BuildConstraint.DeviceSourceExcluded` | internal/features/analyzer/device_source_rules.go:186-228 | Besides the file name's verdict, true exactly when the constraint has at most 12 free tags and no assignment of them satisfies it |
| `BuildConstraint.HostOnlySource` | internal/features/analyzer/loader.go:336-369 | Besides the file name's verdict, true exactly when the constraint has at most 16 free tags and no assignment of them satisfies it with the host tags off |
| `BuildConstraint.AndSatisfiable` | internal/features/analyzer/device_source_rules.go:162-223 | A conjunction whose sides share no free tag is excluded exactly when one of its sides is |
| `BuildConstraint.OrSatisfiable` | internal/features/analyzer/device_source_rules.go:162-223 | A disjunction is excluded exactly when both sides are |
| `BuildConstraint.EvalDependsOnTags` | internal/features/analyzer/loader.go:388-407 | Evaluation depends only on the tags that are gathered |
| `BuildConstraint.MasksDecide` | internal/features/analyzer/device_source_rules.go:212-227 | The masks cover all assignments: something satisfies the constraint exactly if some mask does |
| `BuildConstraint.DeviceTags` | internal/features/analyzer/device_source_rules.go:174-184 | A constraint that is a single tag: kept for the device's own tags, excluded for any other host tag, and the other way round for its negation; free tags exclude nothing |
| `BuildConstraint.Visit` | internal/features/analyzer/loader.go:388-407 | Gathers exactly the tags of the expression |
| `BuildConstraint.ListFree` | internal/features/analyzer/device_source_rules.go:203-208 | Lists each free tag once, in any order |
| `BuildConstraint.DeviceEval` | internal/features/analyzer/device_source_rules.go:213-222 | Evaluation with the callback is evaluation under the fixed tags completed by the mask |
| `BuildConstraint.HostAgrees` | internal/features/analyzer/loader.go:359-366 | Reading absent tags as false agrees with fixing the host tags to false |
| `Incremental.PublishedInOrder` | internal/features/analyzer/incremental.go:147-155 | Under every interleaving of Analyze calls each version that passes the currency check is then the latest of its workspace, the passed versions never decrease within a workspace, and the latest versions never decrease |
| `Incremental.SectionInv` | internal/features/analyzer/incremental.go:233-240 | Each locked section keeps the order of versions, and a call passes its check only with the version that is then the latest |
| `Incremental.AdmitSection` | internal/features/analyzer/incremental.go:147-155 | Admitting a version is the section of a fresh call in the interleaving machine |
| `Incremental.CurrentSection` | internal/features/analyzer/incremental.go:233-240 | The currency check is the section of an analyzing call |
| `Incremental.IncrementalEngine.Admit` | internal/features/analyzer/incremental.go:147-155 | Admission accepts exactly versions not below the latest and records a newer one, which is the section a fresh call takes in every interleaving with these latest versions |
| `Incremental.IncrementalEngine.Current` | internal/features/analyzer/incremental.go:233-240 | The currency check passes exactly versions not below the latest, as the section of an analyzing call does in every interleaving with these latest versions |
| `Incremental.IncrementalEngine.Cached` | internal/features/analyzer/incremental.go:242-251 | A hit returns what was stored last under the key and makes it the most recent; nothing else changes |
| `Incremental.IncrementalEngine.Store` | internal/features/analyzer/incremental.go:253-270 | The cache is the abstract least-recently-used list: the key becomes the most recent, at most `limit` entries stay, survivors keep their values, and the evicted packages are counted |
| `Incremental.IncrementalEngine.Evict` | internal/features/analyzer/incremental.go:259-268 | The eviction loop keeps exactly the last `limit` keys of the order |
| `Incremental.IncrementalEngine.Oldest` | internal/features/analyzer/incremental.go:260-265 | Looking at the entries in any order finds the least recently used one |
| `Incremental.StoredStays` | internal/features/analyzer/incremental.go:256-268 | The key just stored is never evicted |
| `Incremental.EvictedCount` | internal/features/analyzer/incremental.go:259-268 | A store evicts nothing, or the least recently used entry when a new key finds the cache full |
| `Incremental.IncrementalEngine.constructor` | internal/features/analyzer/incremental.go:104-110 | A limit that is not positive becomes 4 |
| `Diagnostics.Collector.PercentileOf` | playdate/diagnostics/diagnostics.go:135-148 | The histogram loop, in 32-bit arithmetic, returns the sorted samples' nearest-rank value below the last bucket, and the maximum when the last bucket hides more |
| `Diagnostics.PercentileBounds` | playdate/diagnostics/diagnostics.go:135-148 | A reported percentile never understates the nearest-rank one nor exceeds the maximum, and differs from it if and only if that one is 255 or more and below the maximum |
| `Diagnostics.PercentileAt` | playdate/diagnostics/diagnostics.go:138-146 | The bucket in which the running count reaches the rank decides the percentile |
| `Diagnostics.Collector.BucketsSum` | playdate/diagnostics/diagnostics.go:94-98 | The sum of the bucket array is the frame count |
| `Diagnostics.RankFits` | playdate/diagnostics/diagnostics.go:136 | The rank lies between 1 and the frame count and its computation stays below 2^32 |
| `Diagnostics.TotalFits` | playdate/diagnostics/diagnostics.go:90 | The 64-bit total cannot wrap |
| `Diagnostics.SignedGrowth` | playdate/diagnostics/diagnostics.go:150-164 | The difference, saturated to 64 bits |
| `Diagnostics.Collector.Record` | playdate/diagnostics/diagnostics.go:76-111 | Records until the limit, then only counts; every summary field and bucket stays exact for the recorded samples |
| `Diagnostics.Collector.MakeReport` | playdate/diagnostics/diagnostics.go:117-133 | The report of the recorded samples: mean, percentiles, extremes, growth and resources |
| `Diagnostics.Collector.New` | playdate/diagnostics/diagnostics.go:67-72 | Accepts exactly the limits 1 to 36000 |
| `Samples.NearestRankCounts` | playdate/diagnostics/diagnostics.go:135-148 | The nearest-rank value is at most a bound exactly if `rank` samples are |
| `Samples.BucketsCount` | playdate/diagnostics/diagnostics.go:94-98 | The lower buckets together count the samples up to their bound |
| `Samples.SortSpec` | playdate/diagnostics/diagnostics.go:28-29 | The reference sort orders the samples and keeps them all |
| `Collision.SceneRuns` | examples/collision/collision.go:102-127 | Over every run of the acceptance scene, resets included, the player overlaps no wall and the score is the number of collected items |
| `Collision.StepGood` | examples/collision/collision.go:111-127 | For any walls, from a state that overlaps none a step sweeps over none on either axis and keeps the score equal to the collected count |
| `Collision.MoveXClear` | examples/collision/collision.go:129-144 | Neither the moved rectangle nor what it swept over meets any wall |
| `Collision.MoveXFarthest` | examples/collision/collision.go:129-144 | The move goes as far as it can: going on would sweep over a wall |
| `Collision.MoveXExactly` | examples/collision/collision.go:129-144 | From a clear start the horizontal move is the one farthest point of the way up to which the rectangle sweeps over no wall |
| `Collision.MoveYClear` | examples/collision/collision.go:146-161 | The same for the vertical move |
| `Collision.MoveYExactly` | examples/collision/collision.go:146-161 | The vertical move likewise |
| `Collision.StepSlides` | examples/collision/collision.go:111-118 | A step slides as far as it can across, then as far as it can up or down from there, and keeps the player's size; Reset starts over |
| `Collision.OverlapsExactly` | examples/collision/collision.go:171-173 | Rectangles overlap exactly when a point is inside both |
| `Collision.StepCollects` | examples/collision/collision.go:119-125 | An item is collected after a step exactly if it was before or the player overlaps it |
| `Collision.RunCollects` | examples/collision/collision.go:119-125 | Over a run without Reset what is collected stays collected |
| `Collision.InitialGood` | examples/collision/collision.go:102-108 | The initial state overlaps none of the scene's walls |
| `Collision.MoveX` | examples/collision/collision.go:129-144 | The wall loop computes the move the theorems are about |
| `Collision.MoveY` | examples/collision/collision.go:146-161 | The vertical wall loop is the horizontal one with the axes exchanged |
| `Collision.Step` | examples/collision/collision.go:111-127 | The step computes the state the run theorems are about; its player makes both moves, each the farthest clear one |

## Left out

- ScheduleInvariant.DriveInv: assumes that no single run of a step makes 2^32 - 1 calls, so that no generation comes round while its step runs.
- ScheduleWait.BoundedWait: counts a cancelled task as served, and says nothing after Terminate.
- ScheduleThroughput.PromptWait: is exact for one Update (ScheduleShort.ServesAllExactly); over several Updates, that none of them stops short is sufficient, and a run in which one does may still meet the bound.
- Panics inside user steps, and generation counters that wrap fully while an old identifier is still kept.
- JSON error messages, byte offsets and pointer paths; a failing scan is just an error.
- The chunked reader loop of json.Decode, and Value.Lookup.
- JsonEncode.RoundTrip: returns the value without the fields its kind does not use, which is the value itself when it has none.
- JsonEncoder.EncodeTo: does not say how much of a value without a text is written before it is rejected.
- validPath and path.Clean: the verdict on a store's path is an input of Stores.Store.New.
- Directories as parents of the store's files, files of 4 GiB or more, and renames or flushes that take partial effect.
- StoreSafety.LoadRetry: assumes deterministic migrations and the disks of LoadKeepsExactly.
- StoreSafety.RunSafe: for runs in which every Save begins in a start from which SaveSafeExactly shows it safe, and no Load meets a failed Stat that hides a value beside a leftover backup.
- ExecutorResults.NoDeadlock: assumes ranks that fall along requirements and imports, which is what acyclic means here.
- Memory visibility and the fact store of the executor; a pass is any result, a recovered panic included.
- Go syntax, types and SSA: calls, features, blocks, return verdicts and decided branches are inputs of the graph algorithms.
- Reachability.Witnesses: assumes that imported facts hold no empty path, which exported facts never do, and names without NUL bytes.
- The reports of device_reachability.go for initializers, imports and cross-package calls, and the sorting of exported facts.
- File name suffixes and the lexing of build constraints: the name's verdict and the parsed expression are inputs.
- Fixes.PrepareFile: stops before go/format, path checks and reading or writing files; column arithmetic near 2^63 is not modelled.
- Incremental.IncrementalEngine.Store: models cache keys as numbers and the clock without a 64-bit wrap.
- Fingerprints, loading, suppression and metrics of Analyze.
- Diagnostics.Collector.MakeReport: computes the mean as an exact quotient instead of a floating-point one.
- Rounding of float32 coordinates in the collision game, its drawing and its queries.
- Device, doctor, log, disk and project-creation commands, the language server transport, flag parsing and report formatting.
- playdate/schedule/queue.go and the runtime's audio and debug queues, which repeat the scheduler's ring without re-entrancy.
- Ownership and application rules, whose budget-limited heuristics have no exact specification.
