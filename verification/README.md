# A verified model of yvex's concurrent protocols, file formats and admission checks

yvex prepares, publishes and serves large language models. This project models the parts of it
whose correctness is a matter of logic: lock protocols, file publication, crash-resumable
downloads, byte formats with readers, and admission checks. Each module says what the code
does, step by step, and proves what it promises for every input, every schedule or every
history.

`dafny verify dfyconfig.toml` checks the whole project.

## The modules

- `QaScheduler` and `QaTrace`: worker threads of any number of processes take named file locks in sorted order,
  then a build lock of their process, run their repetitions and unwind. A run is any schedule of
  worker steps, faults included; what one test does in it is exactly one pass through its routine.
- `RequestQueue`: the server's bounded queue, first as an object with arrays shifted in place, then
  as a machine whose steps are the sections under its mutex, with sleeping and woken workers.
- `PlanStore` and `Preparation`: the preparation context with its `verified` flag, and the
  link-without-replace publication of sealed plans by processes that may crash anywhere.
- `Acquisition` and `AcquisitionIdentity`: downloads resumed over any history of crashes, each
  against a server response with its status, range, length and chunks, and the length-prefixed bytes
  an acquisition is identified by.
- `Safetensors` and `ShardReconciliation`: admission of tensor headers and of shard indexes.
- `GgufProjection` and `GgufMeaning`: writing a GGUF file with aligned tensor regions and widened BF16
  tensors, chunk by chunk, reading it back, and what every byte of it means.
- `ArtifactPins`: shared and exclusive file locks of artifact handles, and bounded reads.
- `Panels` and `PanelOrder`: the forest of panels of a figure, its nested emission, and the order of the
  lines.
- `TurnStream` and `TurnMeaning`: the grammar of turns in a mixed row stream, and what is reported of
  them.
- `ModelRelease` and `ReleaseMeaning`: completeness, identity and publication of release sets.
- `DarwinArchive`, `ShardIndex`, `UnicodeRanges`, `JsonWriter`: four smaller cores with a reader, a
  reference search, a minimality proof and a decoder.
- `Ordering`, `Bytes`, `Json`, `Sequences`, `Wrappers`: the strcmp order and stable sorting, bytes and
  packed integers, parsed JSON, parts of sequences, optional values.

Hashes, the network, the file system's answers, JSON parsing and path handling are parameters.
Where a specification is computed, a second statement in the terms of the inputs alone, by bytes,
points, positions or the steps of a schedule, says what it means: the lemmas named `...Exactly` are
equivalences of this kind.
A protocol is a pair of a predicate saying which step is enabled and a function saying what it
does; a result about it quantifies over all schedules.

## What the proofs found

- A test that names an exclusive resource twice waits for itself. `DuplicateFreeIsExact` shows that
  freedom from duplicates, which the registry generator enforces, is exactly what is needed.
- A second call that stores a plan on the same preparation context succeeds and deletes the stored
  plan: `StoredAfterCall` and `SecondCallDeletes` say exactly when.
- A refused exclusive pin may drop the handle's own shared lock, so a live reader can be left
  unprotected (`RefusedPinUnprotects`), although the comment in the code says that every live handle
  pins its bytes. `UnlockedExactly` says it in terms of the answers the callers got.
- Of two processes that store the same plan at once, the loser of the link returns an input/output
  error although the plan it sealed is stored: `LoserReturnsIo`. `IoExactly` says which steps return
  that error.
- A request from the start accepts a partial response (status 206) without looking at its range, so a
  truthful server can put bytes where they do not belong: `MisplacedExample`. `PrefixExactly` shows
  that this is the only way the partial file stops being a prefix of the content.
- A Git-identified file is renamed to its final name before it is checked. A wrong one is never
  reported as success, and never repaired either: `GitRowsRenameFirst`, `BadTargetIsPermanent`. A
  complete partial file with a wrong digest is never repaired either: `BadPartialIsPermanent`.
  `RecoverableExactly` and `LostForever` say from which files a run can still succeed.
- The archive writer's comment says each payload is aligned to eight bytes. That holds within a
  member. In the file it holds exactly when every payload but the last has a length of 0 or 7 modulo
  8: `AbsoluteAlignment`, `MisalignedExample`.
- A band that no panel contains is never emitted in the Mermaid projection, and every other band is:
  `BandStandsExactly`, `UnownedBandExample`.

## Model

| member | source | states |
|---|---|---|
| QaScheduler.LockPlan | tools/qa.py:327-355 | from a duplicate-free list, the locks taken are exactly the exclusive resources' locks, in strictly increasing name order |
| QaScheduler.ContendExactly | tools/qa.py:334-346 | two schedulers contend for a lock file if and only if they mean the same resource and it is host-wide or they run in the same checkout |
| QaScheduler.StepWorker | tools/qa.py:431-466 | every step of a worker keeps its own invariant: locks held are a prefix of its plan, all of them while it builds or runs, and its status agrees with its repetitions |
| QaScheduler.StepInv | tools/qa.py:326-466 | every step of every worker, faults included, keeps the invariant: locks and holders agree, one builder a process, pool bound |
| QaScheduler.ReachedInv | tools/qa.py:508-513 | the invariant holds after every schedule |
| QaScheduler.MutualExclusion | tools/qa.py:354-356 | in every reachable state two tests with a common lock are never building or running at once, one test a process builds, and the pool bound holds |
| QaScheduler.NobodyOvertakes | tools/qa.py:508-512 | in every reachable state no test has started while an earlier one of its process still waits |
| QaScheduler.ResourceExclusion | tools/qa.py:330-356 | tests of any processes, with locks as planned, that both name an exclusive resource which is host-wide or under the same root never build or run at once |
| QaScheduler.FinishedStatus | tools/qa.py:410-466 | a finished test reports PASS only with all repetitions passed, FAIL or ERROR only with the last of its repetitions the first that did not pass (an error also without any), SKIP or BLOCKED by its policy without any |
| QaTrace.EveryPass | tools/qa.py:406-466 | in every run, whatever others do, the steps of a worker are one pass as far as it has come: start, its locks in order, enter, build lock, build, repetitions that pass, one ending, its locks back |
| QaTrace.PassesExactly | tools/qa.py:406-466 | a worker's own steps can finish a test if and only if they are a refusal or such a pass with one of the four endings |
| QaTrace.EveryPassHappens | tools/qa.py:406-466 | every such pass is the whole of some run of a lone test |
| QaTrace.ReportedExactly | tools/qa.py:424-466 | the status and the repetitions a finished test reports are exactly what its steps in the schedule say |
| QaTrace.BuiltBeforeRun | tools/qa.py:431-437 | a running test, a passed test and a test with any reported repetition took the build lock and then had its build pass |
| QaScheduler.HolderWantsLater | tools/qa.py:330-354 | along a waits-for edge the wanted lock name strictly grows, so waits form no cycle |
| QaScheduler.NeverStuck | tools/qa.py:326-466 | in every reachable state with an unfinished test some worker can take a step that is no fault |
| QaScheduler.EveryRunEnds | tools/qa.py:357-360 | every schedule is bounded in length, and a run that cannot go on has finished every test and released every lock |
| QaScheduler.DuplicateWaitsForItself | tools/qa.py:330-354 | a test whose sorted list repeats a lock reaches a state in which only a fault can move it |
| QaScheduler.DuplicateFreeIsExact | tools/generate_qa_registry.py:85-91 | a test alone is never stuck if and only if its lock names increase strictly |
| RequestQueue.FirstFree | src/server/request_queue.c:60-65 | the index of the first queued entry whose key is not active, or the length |
| RequestQueue.RemoveAt | src/server/request_queue.c:67-71 | shifting in the array removes exactly one element, blanks the last place and leaves the rest |
| RequestQueue.Queue.constructor | src/server/request_queue.c:151-167 | an open queue is empty, bounded, not started and not stopping |
| RequestQueue.Queue.KeyActive | src/server/request_queue.c:48-55 | true if and only if the key is among the active ones |
| RequestQueue.Queue.Select | src/server/request_queue.c:57-76 | takes the first entry with a free key out of the queue and activates the key, or changes nothing |
| RequestQueue.Queue.Release | src/server/request_queue.c:78-90 | retires one occurrence of the key, or changes nothing |
| RequestQueue.Queue.Submit | src/server/request_queue.c:254-273 | appends at the tail when accepting and not full; a full queue is told apart from one not accepting |
| RequestQueue.TakeOldest | src/server/request_queue.c:61-66 | the first free entry is the oldest of its key |
| RequestQueue.StepKey | src/server/request_queue.c:100-131 | every step keeps, for each key, the order of submission over completed, executing and waiting work |
| RequestQueue.StepSleep | src/server/request_queue.c:111-128 | every step keeps the reason why a sleeping worker may sleep |
| RequestQueue.KeyExclusion | src/server/request_queue.c:1-7 | in every reachable state no two workers execute work of the same key |
| RequestQueue.SubmissionOrder | src/server/request_queue.c:57-131 | for every key, accepted work is what completed, then at most one executing, then what waits, in submission order |
| RequestQueue.SubmittedExactly | src/server/request_queue.c:254-273 | for every run and key, what the run submitted is what completed, then the one executing, then what waits; completions are counted |
| RequestQueue.ScanExactly | src/server/request_queue.c:106-121 | a worker exits if and only if stopped and empty, sleeps if every waiting key is active, and otherwise takes the first entry whose key is not |
| RequestQueue.CompletionWakes | src/server/request_queue.c:125-129 | a completion makes its worker and every sleeper look again and leaves the others |
| RequestQueue.StaysBounded | src/server/request_queue.c:254-263 | in every reachable state at most the capacity is queued |
| RequestQueue.ActiveFits | src/server/request_queue.c:72-74 | a scanning worker always finds room in the active array, which has one slot a worker |
| RequestQueue.NoLostWakeup | src/server/request_queue.c:106-128 | with work waiting or a stop pending, not all workers sleep or are gone |
| RequestQueue.StopDrains | src/server/request_queue.c:276-284 | after a stop the worker steps are bounded, and when none is left every worker has exited, nothing waits and all accepted work of every key completed in order |
| RequestQueue.DrainedExactly | src/server/request_queue.c:106-131 | when no worker step is left after a stop, everything ever submitted has completed, for every key in order |
| PlanStore.StoredPathNamesVariant | src/app/preparation.c:790-800 | the stored path determines target and variant |
| PlanStore.Preparer.StorePlan | src/app/preparation.c:776-827 | the status, the file system, the plan path and the artifact path after a call, also when the system refuses the directories, the link or the unlink |
| PlanStore.OkExactly | src/app/preparation.c:781-826 | a call succeeds if and only if both identities are hexadecimal, the path fits, the system consents, and nothing or the same three identities are stored; only the two names change |
| PlanStore.ConflictIsRefused | src/app/preparation.c:808-814 | a stored plan that differs in any of the three identities gives a format error and changes nothing |
| PlanStore.RefusalChangesNothing | src/app/preparation.c:781-819 | without a refused unlink, a call that fails leaves file system and plan path |
| PlanStore.HexExactly | src/app/preparation.c:784-785 | an identity is 64 hexadecimal digits of either case |
| PlanStore.StoredAfterCall | src/app/preparation.c:804-825 | after an OK call the plan stored is the temporary one if and only if the given path was not the stored path, and otherwise none is |
| PlanStore.SecondCallDeletes | src/app/preparation.c:820-825 | a second call on a context that just stored its plan returns OK and removes it |
| PlanStore.FailedUnlinkIsRepeatable | src/app/preparation.c:815-824 | a call that fails after publishing leaves plan and temporary file, and repeated it ends as the undisturbed call does |
| PlanStore.StepInv | src/app/preparation.c:776-827 | every step of every process keeps the protocol invariant; names outside temporary plans are only added and contents never change |
| PlanStore.PublishedPlanNeverChanges | src/app/preparation.c:804-819 | under every interleaving and crash a stored plan stays the same file with the same identities |
| PlanStore.OkMeansStored | src/app/preparation.c:804-826 | a process that returned OK finds the very plan it sealed stored at its path, all three identities included |
| PlanStore.NoPlanIsLost | src/app/preparation.c:804-826 | under every interleaving and crash the plan a process came with is at its temporary path, or, once it returned OK, stored under its variant |
| PlanStore.ConflictNeverReturnsOk | src/app/preparation.c:804-814 | a process whose variant is stored with another identity never returns OK in any run |
| PlanStore.StaysAddressed | src/app/preparation.c:790-819 | whatever happens, a plan below a variant's directory has that variant identity |
| PlanStore.RerunSucceeds | src/app/preparation.c:776-827 | from any invariant state, also after a crash between link and unlink, an undisturbed process with matching identities returns OK, and the machine agrees with the single call |
| PlanStore.UndisturbedIsCall | src/app/preparation.c:776-827 | undisturbed, a process ends with the status and the file system of the single call, on every path |
| PlanStore.IoExactly | src/app/preparation.c:802-824 | a step returns the input/output error if and only if the system refuses it, or it is a link and a plan was stored since the process looked |
| PlanStore.IoMeansStored | src/app/preparation.c:815-819 | in every run, a process that returned that error without a refusal finds a plan stored at its path |
| PlanStore.LoserReturnsIo | src/app/preparation.c:804-819 | from every state with two equal processes about to start and nothing stored there is a run in which one returns the error and the plan it sealed is stored |
| Preparation.MatchIffNoMismatch | src/app/preparation.c:175-213 | the artifact matches the plan if and only if no mismatching field is reported |
| Preparation.MatchExactly | src/app/preparation.c:175-189 | a plan matches exactly one admission, and has one if and only if it is complete and its variant is its profile |
| Preparation.ExistingArtifact | src/app/preparation.c:747-774 | OK exactly on a match including the imatrix; the imatrix is named exactly when everything else matches |
| Preparation.ModelPreparation.constructor | src/app/preparation.c:912-956 | a new context is not verified and has had no effect |
| Preparation.ModelPreparation.DoVerify | src/app/preparation.c:996-1004 | status, flag and effects of a verification |
| Preparation.ModelPreparation.DoStorePlan | src/app/preparation.c:1006-1015 | stores only when mutable, verified and not rebinding |
| Preparation.ModelPreparation.DoCached | src/app/preparation.c:1017-1029 | answers only on a verified context, and changes nothing |
| Preparation.ModelPreparation.DoArtifactVerify | src/app/preparation.c:1031-1038 | compares only on a verified context, and changes nothing |
| Preparation.ModelPreparation.DoBindingPublish | src/app/preparation.c:1040-1053 | compiles a binding only when mutable, verified and matching |
| Preparation.FlagIsLatestVerify | src/app/preparation.c:996-1004 | after every sequence of calls the flag is the success of the latest verification |
| Preparation.FlagExactly | src/app/preparation.c:996-1004 | after every sequence of calls the flag holds if and only if the context is mutable and the latest verification found directories and source in order |
| Preparation.OutcomeExactly | src/app/preparation.c:996-1053 | status, flag and effects of every call of every sequence, told from the calls before it |
| Preparation.GatedMutation | src/app/preparation.c:987-1053 | over every sequence of calls, each effect is allowed: none on a dry run, storing and compiling only under a successful latest verification, no storing on a rebind, compiling only on a match |
| Preparation.DryRunStaysUnverified | src/app/preparation.c:987-1004 | a dry run never becomes verified, has no effect and answers every call with a state error |
| Acquisition.HashExisting | tools/minimax_h3_intake.py:1113-1131 | accepts exactly files within the bound and feeds the digest exactly the file |
| Acquisition.Destination.StreamFile | tools/minimax_h3_intake.py:339-379 | for every response: which are refused before a byte is written (host, status, range, length), what is appended, fed and counted otherwise, and which states the partial file passes through |
| Acquisition.Destination.Receive | tools/minimax_h3_intake.py:366-374 | the reading loop appends and feeds the body up to the missing bytes and no more |
| Acquisition.Destination.Download | tools/minimax_h3_intake.py:1190-1210 | resumes or starts the partial file and renames it exactly when complete and, for LFS rows, matching |
| Acquisition.Destination.AcquireOne | tools/minimax_h3_intake.py:1166-1221 | result and files of a run; every state passed through is one a crash may leave |
| Acquisition.SuccessIsAuthentic | tools/minimax_h3_intake.py:1204-1221 | from any files and any response, success implies exact size, matching identity, the digest of the whole file, and only the missing bytes transferred |
| Acquisition.ExpectedExactly | tools/minimax_h3_intake.py:1155-1163 | a digest is promised if and only if the LFS identity is 64 lower-case hexadecimal digits with or without the algorithm's name |
| Acquisition.AuthenticExactly | tools/minimax_h3_intake.py:1211-1221 | what a row promises: size, and SHA-256 or Git blob identity |
| Acquisition.SuccessExactly | tools/minimax_h3_intake.py:1166-1221 | a run succeeds if and only if the files admit it, the download gets all missing bytes with the right host, status, range and length, and the result is authentic |
| Acquisition.LeftExactly | tools/minimax_h3_intake.py:1190-1210 | what every run leaves: untouched files, the partial file with what was accepted, or the renamed file |
| Acquisition.RefusedExactly | tools/minimax_h3_intake.py:353-365 | an unknown host, another length or status is refused before a byte is written |
| Acquisition.PrefixExactly | tools/minimax_h3_intake.py:356-365 | a possible response leaves a prefix of every content it is truthful about if and only if it is not a partial response from another offset to a request from the start |
| Acquisition.MisplacedExample | tools/minimax_h3_intake.py:360-361 | a truthful response whose second half of the content is written to the start of the partial file |
| Acquisition.IgnoredRangeIsRefused | tools/minimax_h3_intake.py:356-359 | a response to a resumed request without status 206 and the exact range is refused and changes nothing |
| Acquisition.StaysConsistent | tools/minimax_h3_intake.py:1190-1210 | over every history of interrupted and resumed runs against truthful servers, misplaced responses aside, the partial file stays a prefix of the immutable content |
| Acquisition.RerunCompletes | tools/minimax_h3_intake.py:1190-1221 | after any such history one run with any truthful response that sends what is missing succeeds with the content |
| Acquisition.LfsTargetAlwaysAuthentic | tools/minimax_h3_intake.py:1207-1210 | an LFS file under its final name has its promised digest in every history, whatever servers send |
| Acquisition.GitRowsRenameFirst | tools/minimax_h3_intake.py:1210-1221 | from any files that are streamed to, resumed ones included, a complete response is renamed first, and the run succeeds if and only if the result is authentic |
| Acquisition.BadTargetIsPermanent | tools/minimax_h3_intake.py:1186-1221 | a wrong final file makes every later run of every history fail and stays |
| Acquisition.BadPartialIsPermanent | tools/minimax_h3_intake.py:1195-1210 | a complete partial file of an LFS row with a wrong digest makes every later run of every history fail with the mismatch and stays |
| Acquisition.RecoverableExactly | tools/minimax_h3_intake.py:1166-1221 | some run with some response succeeds if and only if the files are authentic or the partial file can be extended to authentic content |
| Acquisition.LostForever | tools/minimax_h3_intake.py:1166-1221 | from files that are not so, every later run of every history fails |
| AcquisitionIdentity.Digest.IdentityText | tools/minimax_h3_intake.py:86-89 | feeds the length and the text, or refuses lengths of 64 bits and more |
| AcquisitionIdentity.Digest.Identity | tools/minimax_h3_intake.py:92-107 | feeds exactly the packed record, and refuses exactly records that do not fit |
| AcquisitionIdentity.RoundTrip | tools/minimax_h3_intake.py:86-107 | a decoder recovers the whole record from the bytes fed |
| AcquisitionIdentity.HeadReads | tools/minimax_h3_intake.py:92-96 | a reader finds schema, repository, revision and subdirectory in this order, then the number of files |
| AcquisitionIdentity.RowReads | tools/minimax_h3_intake.py:97-106 | a reader finds path, size and the seven texts of a row in the source's order |
| AcquisitionIdentity.DistinctRecordsDistinctIdentities | tools/minimax_h3_intake.py:92-107 | different fitting records feed different bytes |
| Safetensors.DecidesAllPairs | tools/minimax_h3_intake.py:668-671 | sorted neighbours do not overlap if and only if no two positive ranges overlap |
| Safetensors.Disjoint | tools/minimax_h3_intake.py:668-671 | the sort-and-compare loop accepts exactly pairwise disjoint ranges |
| Safetensors.ParseShape | tools/minimax_h3_intake.py:634-635 | accepts exactly arrays of non-negative integers |
| Safetensors.Multiply | tools/minimax_h3_intake.py:643-645 | the element count is the product of the shape |
| Safetensors.ParseTensor | tools/minimax_h3_intake.py:630-650 | accepts exactly descriptors that describe a tensor, and returns it |
| Safetensors.ParseTensors | tools/minimax_h3_intake.py:626-667 | the field loop returns the header's inventory, or none within the limit exists |
| Safetensors.OneInventory | tools/minimax_h3_intake.py:626-665 | a header has at most one inventory |
| Safetensors.ParseSafetensors | tools/minimax_h3_intake.py:593-680 | accepts exactly the admissible headers, a component included |
| Safetensors.AcceptedSpans | tools/minimax_h3_intake.py:643-671 | every accepted span is type size times shape product and inside the payload, and all spans together fit the payload |
| Safetensors.DtypesKnown | tools/minimax_h3_intake.py:42-58 | the known types are exactly the fifteen of the table |
| Safetensors.DtypeBits | tools/minimax_h3_intake.py:42-58 | the number in a type's name is eight times its size |
| Safetensors.ProductSplits | tools/minimax_h3_intake.py:643-645 | the element count of a shape is the product over any split of it |
| Safetensors.NoSharedByte | tools/minimax_h3_intake.py:668-671 | no two tensors overlap if and only if no byte belongs to two of them |
| Safetensors.InventoryCovers | tools/minimax_h3_intake.py:626-650 | every field but the metadata is described by a tensor of its name |
| Safetensors.AcceptedFrame | tools/minimax_h3_intake.py:604-612 | the bounds of an accepted header |
| ShardReconciliation.GroupTensors | tools/minimax_h3_intake.py:689-696 | accepts exactly tensor names unique per component, and groups them |
| ShardReconciliation.GroupShards | tools/minimax_h3_intake.py:697-700 | accepts exactly shards that have a component, and collects them |
| ShardReconciliation.ReadIndex | tools/minimax_h3_intake.py:708-722 | accepts exactly well-formed index documents of one component, and builds their weight map |
| ShardReconciliation.ReadIndexes | tools/minimax_h3_intake.py:701-722 | accepts exactly well-formed indexes, one a component |
| ShardReconciliation.CheckIndex | tools/minimax_h3_intake.py:741-765 | accepts exactly indexes equal to the headers' map, with no missing or stale shard and the declared total |
| ShardReconciliation.ReconcileIndexes | tools/minimax_h3_intake.py:683-779 | accepts exactly consistent inputs, and reports exactly one row for each component with shards, in strictly increasing order, with its index path |
| ShardReconciliation.AcceptedIndexIsExact | tools/minimax_h3_intake.py:741-757 | on an accepted input an index is the header-derived map and onto its component's shards |
| ShardReconciliation.WeightsExactly | tools/minimax_h3_intake.py:714-721 | the weight map sends a name to its last entry's text resolved beside the index, and has no other names |
| ShardReconciliation.AcceptedEntries | tools/minimax_h3_intake.py:714-757 | on an accepted input every tensor has its entry and every entry its tensor, and the resolved text is the tensor's shard |
| ShardReconciliation.AcceptedComponents | tools/minimax_h3_intake.py:723-727 | on an accepted input a component with several shards has exactly one index |
| ShardReconciliation.SpansAdd | tools/minimax_h3_intake.py:761 | the total is additive with one span for one tensor |
| ShardReconciliation.PathsExactly | tools/minimax_h3_intake.py:699-704 | which paths are shards and which are indexes |
| GgufProjection.AlignedFormula | tools/qualification_gguf.py:34 | the formula computes the least multiple that holds the value |
| GgufProjection.AlignedChecked | tools/qualification_gguf.py:28-34 | by the bit test, refuses exactly negative values and alignments that are no power of two, and otherwise returns the least multiple |
| GgufProjection.BitTest | tools/qualification_gguf.py:32 | for a positive number, the bitwise and with its predecessor is zero if and only if it is a power of two |
| GgufProjection.WidenBuffer | tools/qualification_gguf.py:20-25 | refuses exactly odd lengths; the strided writes give the widened bytes |
| GgufProjection.WidenShifts | tools/qualification_gguf.py:103-106 | as numbers, every widened element is the source element times 65536 |
| GgufProjection.WidenAppend | tools/qualification_gguf.py:64-71 | widening even pieces and joining them is widening the whole |
| GgufProjection.CopyTensor | tools/qualification_gguf.py:60-72 | succeeds exactly on readable extents, and the chunks are the encoding of the whole tensor |
| GgufProjection.WriteMetadata | tools/qualification_gguf.py:112-121 | succeeds exactly when every extent agrees, and writes the renamed fields |
| GgufProjection.WriteDirectory | tools/qualification_gguf.py:122-133 | writes one entry a tensor with the running aligned offset |
| GgufProjection.WriteFront | tools/qualification_gguf.py:111-135 | header, metadata, directory and padding, written exactly when everything fits |
| GgufProjection.WriteData | tools/qualification_gguf.py:136-141 | writes every padded region exactly when every tensor is readable; the offset guard is evaluated and never fires |
| GgufProjection.Project | tools/qualification_gguf.py:107-141 | succeeds exactly on admitted jobs with the specified file; the offset refusal is impossible |
| GgufProjection.RegionsDisjoint | tools/qualification_gguf.py:122-133 | regions of different tensors, padding included, do not overlap |
| GgufProjection.Alignment | tools/qualification_gguf.py:133-137 | data and every tensor start on a multiple of the alignment |
| GgufProjection.Layout | tools/qualification_gguf.py:136-141 | every tensor's encoding lies at its directory offset, followed by zero padding shorter than the alignment |
| GgufProjection.HeaderReadsBack | tools/qualification_gguf.py:111 | a reader finds version 3 and the numbers of tensors and fields |
| GgufProjection.FieldReadsBack | tools/qualification_gguf.py:113-121 | a metadata field's key becomes the alias and everything after the key is kept |
| GgufProjection.DirectoryReadsBack | tools/qualification_gguf.py:123-130 | a reader recovers every directory entry from the bytes |
| GgufProjection.DirectoryPlaced | tools/qualification_gguf.py:129-137 | the directory stands behind the head, and the data starts where it ends, aligned |
| GgufProjection.FileReads | tools/qualification_gguf.py:111-141 | a reader of the written file, from its first byte, finds the counts, the metadata, every directory entry and, where the entries end, aligned, a data section in which every tensor is aligned, apart from the others, encoded and zero-padded |
| GgufMeaning.FileMeans | tools/qualification_gguf.py:111-141 | the file says, byte by byte: version and counts; every metadata field under its new key with its bytes; every entry with the tensor's name, shape and stored type; every tensor's elements at its aligned offset, copied or as two zero bytes and the element; zeros between, fewer than the alignment |
| GgufMeaning.ProjectMeans | tools/qualification_gguf.py:107-141 | what is written says exactly that |
| GgufMeaning.AdmittedExactly | tools/qualification_gguf.py:107-141 | a job is written if and only if its alignment passes the bit test, its keys stand where the reader found them, its tensors lie in the source and its numbers fit |
| GgufMeaning.MagicIs | tools/qualification_gguf.py:111 | the file starts with GGUF |
| GgufProjection.CompareTensor | tools/qualification_gguf.py:144-151 | the chunked comparison succeeds exactly when the tensor's bytes agree |
| GgufProjection.ReadBack | tools/qualification_gguf.py:142-151 | the comparison of a file succeeds exactly when every tensor reads back |
| GgufMeaning.ReadsBackExactly | tools/qualification_gguf.py:144-151 | a tensor reads back if and only if its extent is in the source and its elements stand in the file |
| GgufProjection.ProjectAndReadBack | tools/qualification_gguf.py:107-151 | on an unchanged source, writing succeeds if and only if writing and reading back do |
| ArtifactPins.StepInv | src/artifact/core.c:67-138 | every step of every handle keeps exclusion and the lock each phase implies |
| ArtifactPins.SoleHolder | src/artifact/core.c:73-76 | in every reachable state an exclusive lock is the only lock on its inode |
| ArtifactPins.LockOfLiveHandle | src/artifact/core.c:67-78 | a live handle has lost its lock exactly when its latest pin was refused non-atomically, is exclusive exactly when it was granted whatever validation said, and is shared if it never tried |
| ArtifactPins.UnlockedExactly | src/artifact/core.c:67-78 | where conversion is not atomic a live handle is unlocked if and only if its latest pin call was refused; where it is atomic, never |
| ArtifactPins.PinExactly | src/artifact/core.c:73-77 | a live handle can be pinned at once if and only if no other handle on its inode holds a lock |
| ArtifactPins.PinnedMeansNoReader | src/artifact/core.c:132-138 | under a pin every other live handle on the inode has a refused pin |
| ArtifactPins.ReaderHolds | src/artifact/core.c:132-138 | a reader that never tried to pin keeps its lock through everything others do, and keeps them from pinning |
| ArtifactPins.NobodyComesIn | src/artifact/core.c:132-138 | until a pinned handle is closed it stays pinned and nobody passes open |
| ArtifactPins.RefusedPinUnprotects | src/artifact/core.c:73-76 | there is a run in which a handle is pinned under a live reader whose own pin was refused |
| ArtifactPins.RangeCheck | src/artifact/core.c:395-422 | in 64-bit arithmetic, accepts exactly ranges that end inside the file |
| ArtifactPins.ReadAt | src/artifact/core.c:272-323 | invalid arguments are refused; OK exactly when all bytes were read; what is written is the file's bytes, the rest of the buffer is untouched, and the platform offset guard never fires |
| Panels.ContainsIsLarger | tools/render_diagrams.py:263-265 | a containing box of a box with positive size is strictly larger |
| Panels.ContainsExactly | tools/render_diagrams.py:263-265 | a box of some size is contained if and only if every point of it is a point of the other box, and they differ |
| Panels.SmallestContains | tools/render_diagrams.py:266-268 | the owner of a box contains it, no containing panel is smaller, and none before it is as small |
| Panels.OwnerExactly | tools/render_diagrams.py:266-268 | the owner is, by points and products, the first of the smallest panels that cover the box |
| Panels.Own | tools/render_diagrams.py:262-273 | the owners form a forest: every owner ranks strictly above what it owns |
| Panels.Emitter.EmitPanel | tools/render_diagrams.py:280-294 | the recursion ends, and appends exactly the panel's lines |
| Panels.Emitter.Emit | tools/render_diagrams.py:295-297 | what no panel owns first, then the outermost panels |
| Panels.ReadPanel | tools/render_diagrams.py:280-294 | a panel's lines leave the nesting as they found it and place exactly its subtree |
| Panels.EveryItemOnce | tools/render_diagrams.py:269-297 | subgraphs are balanced, and every panel, every node and every owned band stands exactly once, in its owner |
| Panels.OwnedExactly | tools/render_diagrams.py:289-293 | the chained nodes or bands of a panel are exactly those it owns, in order |
| Panels.BandStandsExactly | tools/render_diagrams.py:286-297 | a band stands in the lines if and only if some panel contains it |
| Panels.Mermaid | tools/render_diagrams.py:257-297 | the emitted lines show every item exactly once in the first of the smallest panels covering it, bands without one not at all, a direction in every panel, and order chains exactly where no edge joins two nodes of a panel |
| Panels.UnownedBandExample | tools/render_diagrams.py:286-297 | a figure whose band no emitted lines show |
| PanelOrder.LinesInOrder | tools/render_diagrams.py:280-297 | what a reader sees directly in a panel is its direction, its nodes, the panels in it, its bands and their chains, and outside all panels the loose nodes and then the outermost panels: each in the order of the figure and nothing else |
| TurnStream.Finish | tools/qualification_run.py:746-765 | a terminal row is accepted exactly when it ends a correct turn, and what is then reported |
| TurnStream.SummarizeNative | tools/qualification_run.py:727-769 | accepts exactly what parses, missing keys and counts that are no integers, or not finite, included, and reports the observations of the turns in order |
| TurnStream.AcceptsExactly | tools/qualification_run.py:727-769 | a stream parses if and only if its relevant rows are some sequence of correct turns |
| TurnStream.RoundTrip | tools/qualification_run.py:731-769 | flattening correct turns, with any other rows mixed in, parses back to those turns |
| TurnStream.UniqueGrouping | tools/qualification_run.py:731-769 | the grouping of rows into correct turns is unique |
| TurnStream.ObservationAt | tools/qualification_run.py:757-765 | one observation a turn, in order |
| TurnStream.FirstIsFirst | tools/qualification_run.py:754-760 | the first visible fragment is visible and no visible one comes before it |
| TurnStream.ContentJoins | tools/qualification_run.py:755-756 | a channel's content is the concatenation over any split of its fragments |
| TurnMeaning.ContentExactly | tools/qualification_run.py:755-756 | a channel's content is what its fragments decode to, joined in order, and is missing if and only if one does not decode |
| TurnMeaning.FirstExactly | tools/qualification_run.py:754-760 | the reported first time is that of the first fragment with text on the channel, or none |
| TurnMeaning.SummaryReports | tools/qualification_run.py:757-765 | every observation reports its turn: terminal row, admission, the three first times, and the digests of what channels 1 and 2 carried |
| TurnMeaning.TurnExactly | tools/qualification_run.py:733-760 | a turn is accepted if and only if everything in it belongs to its acknowledged request and comes after it, counts add up, fragments are complete and decode, and first visible ones are timed |
| ModelRelease.SortedIsRange | tools/model_release.py:181-182 | sorting gives 1 to n if and only if every number from 1 to n occurs once and nothing else |
| ModelRelease.CheckComponent | tools/model_release.py:176-182 | accepts exactly components numbered 1 to n, each once, all declaring n |
| ModelRelease.CheckSet | tools/model_release.py:172-189 | accepts exactly complete sets within their scope |
| ModelRelease.QualifyGate | tools/model_release.py:192-215 | passes exactly a review for exactly these bytes in any order, this source and with its fields; blocks exactly with a reason; anything else is refused |
| ModelRelease.ReadyExactly | tools/model_release.py:226-248 | the release is ready if and only if every review passed and every file's upstream is resolved |
| ReleaseMeaning.BlockersExactly | tools/model_release.py:226-248 | the blockers in order, each if and only if its review is blocked or a file's upstream unresolved; the first is the status |
| ReleaseMeaning.ScopeExactly | tools/model_release.py:183-189 | what each scope demands of the components |
| ModelRelease.Project | tools/model_release.py:221-250 | succeeds exactly on complete sets with valid reviews and an admitted repository; the sorted files, the digest of the sorted tuples, the status and every blocker |
| ModelRelease.KeyIsUnique | tools/model_release.py:236-238 | in a complete set component and index are a key |
| ModelRelease.OrderDoesNotMatter | tools/model_release.py:221-225 | permuting the listed files changes neither acceptance nor the list |
| ModelRelease.FilenamesDoNotMatter | tools/model_release.py:236-240 | complete sets of the same physical tuples have the same identity |
| ModelRelease.IdentityDetermines | tools/model_release.py:236-240 | with an injective digest equal identities mean the same physical tuples |
| ReleaseMeaning.IdentityExactly | tools/model_release.py:236-240 | two complete sets have the same identity if and only if they are the same files by digest, size, component, index and count |
| ReleaseMeaning.ListedInOrder | tools/model_release.py:221-223 | the listed files are the given ones by strictly increasing name |
| ModelRelease.CheckReceipt | tools/model_release.py:258-266 | accepts exactly receipts of a public verified publication with all five gates and evidence |
| ModelRelease.BindFile | tools/model_release.py:277-294 | accepts exactly files bound by receipt and catalog, and gives their location |
| ModelRelease.BindFiles | tools/model_release.py:276-296 | accepts exactly when every file is bound; each file gains its own location, and the locations are those of the files in order |
| ModelRelease.BindPublication | tools/model_release.py:254-302 | binds exactly a ready release whose receipt is confirmed and every file of which has one matching published artifact and catalog entry; the given release is untouched, identity and tuples are kept, one location a file is added, receipt, evidence and catalog are recorded |
| ReleaseMeaning.BoundExactly | tools/model_release.py:277-294 | a file is bound if and only if the only artifact of its name has its bytes and the only catalog entry of these bytes lists this location as published |
| ReleaseMeaning.BoundAdds | tools/model_release.py:285-295 | binding appends exactly that location |
| ReleaseMeaning.ConfirmedExactly | tools/model_release.py:258-266 | the five gates and the visibility of a receipt |
| ReleaseMeaning.BindableExactly | tools/model_release.py:256-296 | which releases are bound, by positions in receipt and catalog |
| DarwinArchive.WidthIsLeast | tools/archive_darwin.py:19-20 | the name width is the least number congruent to 4 modulo 8 that holds the name |
| DarwinArchive.HeaderIsSixty | tools/archive_darwin.py:24-27 | no admitted member overflows a field, so the header length check never fires |
| DarwinArchive.OtherFieldsRead | tools/archive_darwin.py:24-25 | time, owner and group are zero and the mode is 100644, in their columns |
| DarwinArchive.TextsAre | tools/archive_darwin.py:14-25 | the constant texts of the format |
| DarwinArchive.WriteMember | tools/archive_darwin.py:16-33 | accepts exactly admitted members and appends their bytes |
| DarwinArchive.Archive | tools/archive_darwin.py:13-33 | writes exactly the members before the first refused one |
| DarwinArchive.FirstRefusedIs | tools/archive_darwin.py:15-27 | everything before it is admitted, and it is not |
| DarwinArchive.RoundTrip | tools/archive_darwin.py:13-33 | a reader of the format recovers exactly the ordered names and payloads |
| DarwinArchive.PayloadIsThere | tools/archive_darwin.py:29-33 | every payload lies at its computed position |
| DarwinArchive.PaddingInMember | tools/archive_darwin.py:32-33 | a member of odd size ends with a newline behind its payload, one of even size with the payload |
| DarwinArchive.AbsoluteAlignment | tools/archive_darwin.py:19-33 | all payloads are 8-aligned in the file if and only if all but the last have length 0 or 7 modulo 8 |
| DarwinArchive.MisalignedExample | tools/archive_darwin.py:19-33 | two small members whose second payload is misaligned |
| ShardIndex.Index.constructor | src/core/shard_index.c:19 | a zeroed index is empty |
| ShardIndex.Index.Init | src/core/shard_index.c:11-39 | accepts exactly canonical arrays within budget; otherwise the index is empty and the result is the first fault |
| ShardIndex.Index.At | src/core/shard_index.c:41-47 | the entry at an identifier, which carries that identifier, or none |
| ShardIndex.Index.Find | src/core/shard_index.c:51-73 | agrees with linear search, finds a key exactly when present, within bit-length comparisons |
| UnicodeRanges.LetterRanges | tools/generate_tokenizer_unicode.py:20-33 | the ranges ascend, leave gaps, and contain a code point exactly when it is a letter |
| UnicodeRanges.LetterExactly | tools/generate_tokenizer_unicode.py:21-29 | a letter is a single letter row's code point or anything from a first row to the letter row that closes it |
| UnicodeRanges.Minimal | tools/generate_tokenizer_unicode.py:29-33 | no fewer ranges contain the same code points |
| JsonWriter.File.WriteCharacter | src/io/writer.c:14-45 | appends the escape of a byte |
| JsonWriter.EscapesAre | src/io/writer.c:17-42 | the escape of every byte, as text |
| JsonWriter.File.WriteString | src/io/writer.c:9-48 | appends the quoted string; a null pointer is the empty one |
| JsonWriter.File.WriteField | src/io/writer.c:50-61 | appends indentation, name, value and ending |
| JsonWriter.StringReads | src/io/writer.c:9-48 | a decoder for section 7 of RFC 8259 recovers every string and stops behind its closing quote |
| JsonWriter.FieldReads | src/io/writer.c:50-61 | a written field splits back into name, value and comma |
| JsonWriter.FieldsDiffer | src/io/writer.c:50-61 | fields written alike are equal |
| Ordering.StrictTotalOrder | src/core/shard_index.c:29-32 | comparing bytes as strcmp does is a strict total order |
| Ordering.LessExactly | src/core/shard_index.c:29-32 | one text is less if and only if after a common beginning it ends first or goes on with a smaller character |

## Left out

- The public headers' contracts whose implementations are large (allocation, layouts, token ledgers,
  backends, kernels): they would need a model of numerical code.
- HTTP, subprocesses, `make`, git and procfs: their answers are parameters or nondeterministic steps.
- SHA-256, SHA-1, JSON parsing, regular expressions and POSIX path normalisation: parameters, with
  injectivity assumed only where a result says so.
- Symlinks, permissions, owners and credentials of files: environment policy.
- Torn writes that leave bytes other than a prefix of what was being appended: a crash leaves a prefix.
- The request queue's thread creation failure, its `open` refusals and the observer callback.
- Rounding of machine floats: coordinates and times are exact numbers.
- The text inside emitted diagram lines, edge lines and the SVG rendering: lines stand for their
  meaning.
- `fragment_manifests` in tools/qualification_run.py, the sibling grammar of the turn stream: it adds
  the same kind of result.
- Integers too large for a float among the times of the turn stream: the source stops on them.
- The contents of a release review's fields, the file receipts, and the forms of text they check: one
  parameter each.
- `ar -s` after the archive is written, and objects that change size while they are copied.
- UnicodeData.txt with unpaired range rows or descending code points: the source pins the one file
  it accepts by digest.
- QaScheduler.ResourceExclusion: all processes of a host are taken to use the same runtime directory,
  so that a host-wide resource has one lock file.
- GgufProjection.FileReads: the type and value bytes of a metadata field are kept as they are and not
  parsed.
- ArtifactPins.ReadAt: a call still waiting for the system is a result of its own.
- DarwinArchive.Archive: name encoding to UTF-8 is not modelled, names are bytes.
