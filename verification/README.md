# Virtual camera runtime: verified model

A Dafny model of the parts of the virtual camera that are hardest to get right, with
proofs over all inputs, all runs and all interleavings.

**Stopping the world.** `signal_park.dfy` is the parking protocol between one owner
thread and any number of signal handlers, one step per atomic operation. `signal_park_safety.dfy`
has its invariant and `signal_park_theorems.dfy` what it guarantees: epochs never overlap, held
threads stay held, a successful resume has drained every handler, and exactly which handlers a
wake can miss. `coordinator.dfy` is the thread quiescence coordinator over a backend with arbitrary
answers (`quiescence_backend.dfy`), `coordinator_laws.dfy` the laws of its calls and its inventory checks.
`stop_the_world.dfy` joins the two: after a successful enter, every other thread is in the handler outside
the patch range.

**Installing the hook.** `patch_planner.dfy` builds the entry patch and the trampoline.
`arm64.dfy` is a small A64 machine (Arm Architecture Reference Manual, DDI 0487): it runs BTI, the literal
load, BR and the conditional branches itself and every other instruction by an arbitrary semantics. In
`trampolines.dfy` the planner's bytes run on it. `stolen_words.dfy` says where control can go among the four
stolen words, `relocation.dfy` and `relocation_limits.dfy` what they mean in a trampoline and exactly when that
is what they meant at the target. `supported_prologues.dfy` applies this to the supported device, and
`precompiled_trampoline.dfy` does the same for the trampoline that is linked in.
`patch_laws.dfy` and `patch_transaction.dfy` are the prepare, commit and rollback transaction over memory
whose writes may fail part-way (`patch_backend.dfy`). `hooked_program.dfy` puts planner, transaction and
machine together.

**Parcels.** `parcel.dfy` is a parcel as words, opaque objects and a cursor, `camera_ids.dfy` what headers
and IDs look like in it. `parcel_layouts.dfy`,
`capture_requests.dfy`, `request_renaming.dfy`, `splices.dfy` and `request_rewriter.dfy` are the capture
request rewriter; `parcel_observer.dfy` and `camera_id_rewriter.dfy` the observer and the single-ID
rewriter; `status_reply.dfy` and `listener_filter.dfy` the status reply filter.

**Digest and evidence.** `sha256_spec.dfy` is SHA-256 as FIPS 180-4 defines it, `sha256.dfy` the
streaming class that refines it. `protocol_evidence.dfy` is the lock-free evidence with its torn snapshot.

**Frames.** `frame_format.dfy`, `frame_store.dfy`, `yuv_layout.dfy` and `rgb_frame.dfy` are the frame file, its
atomic publication by the provider and the relay, the layout of a camera buffer, and the loader that fills it.

`bytes.dfy`, `sorting.dfy` and `environment.dfy` hold what the others share. Machine words, bytes and
addresses are numbers with their width written out. An answer of the operating system or of a callback is
an arbitrary value.

## Where the code does less than it may seem

- A handler reads the release word again after testing it, so one resume does not always wake every
  handler. `LostWake` is such a run and `WakeMissesExactlyStrandable` says which handlers are concerned.
- The conditional-branch mask misses BC.cond, although the comment beside it names it (`AcceptedWords`).
  The trampoline still means what the stolen words meant exactly when no BC.cond that can be reached and taken
  leaves them (`TrampolinePreservesMeaning`). Which words leave the flags alone is a parameter: "exactly" is over
  all instruction sets in which the words of that set do, so the larger the set, the more branches are dead.
  With one BC.cond the condition is that it goes to one of the stolen words or to their end, for every such set
  (`OneBranchEscapesExactly`); with two, one that goes outside may be dead (`DeadBranchNeverEscapes`).
  `BranchPrologues` has a prologue that the planner takes and that can leave.
- The other accepted words must be position independent. That is a hypothesis on the instruction set
  (`Independent`), not a consequence of the masks: PACIASPPC, AUTIASPPC and RETAASPPC of FEAT_PAuth_LR read the
  program counter and are accepted (`AcceptedPcReaders`).
- A plan may place its trampoline right behind the stolen words. There the resume address is the trampoline
  itself, and it never gets on (`BehindLosesMeaning`). At every other address a plan may have, a prologue
  without BC.cond keeps its meaning (`StraightPrologueMeans`).
- IDs are written through a C string, so an ID with a NUL byte is cut short. `RenamedParsesExactly` and
  `ObservedIdIs` say when that matters.
- A snapshot of the evidence masks can be one that no instant had (`TornMasks`); its verdict is real.
  `SnapshotOfAnInstant` says exactly when the masks are those of an instant, in terms of the four load instants.
- `load` accepts a file without pixels exactly for an I420 header of odd size (`LoadableButEmpty`), and there is
  such a file for every odd size (`EmptyFileLoads`).

## Model

| member | source | states |
|---|---|---|
| `SignalParkSafety.StepKeepsInv` | runtime/platform/AndroidSignalQuiescenceBackend.cpp:296-375 | every atomic step of the owner, of any handler and of the operating system keeps the invariant: exact handler count, one epoch in flight, each handler on its own slot, published slots only of held threads, and what the owner knows at each point of its callback |
| `SignalParkSafety.OthersKeepInv` | runtime/platform/AndroidSignalQuiescenceBackend.cpp:296-323 | steps of anyone but the owner keep the invariant, keep every published handler held with its PC, and leave the epoch words alone |
| `SignalParkSafety.OwnerKeepsInv` | runtime/platform/AndroidSignalQuiescenceBackend.cpp:862-995 | every step of the three callbacks keeps the invariant |
| `SignalParkTheorems.RunKeepsInv` | runtime/platform/AndroidSignalQuiescenceBackend.cpp:281-375 | the invariant holds in every state of every interleaving |
| `SignalParkTheorems.EpochsNeverOverlap` | runtime/platform/AndroidSignalQuiescenceBackend.cpp:296-323 | no two in-flight handlers carry different epochs, none carries one other than the active epoch, each thread has at most one slot, and the handler count is the number of handlers in flight |
| `SignalParkTheorems.NoStaleSlotWrite` | runtime/platform/AndroidSignalQuiescenceBackend.cpp:305-313 | a handler that writes a slot carries the last opened epoch, writes only the slot with its own thread ID, and none writes while the owner clears slots for a new epoch |
| `SignalParkTheorems.HeldUntilResume` | runtime/platform/AndroidSignalQuiescenceBackend.cpp:313-321 | a thread that has published an open epoch stays in the wait loop with its interrupted PC through every run without a resume |
| `SignalParkTheorems.WaitSucceedsSoundly` | runtime/platform/AndroidSignalQuiescenceBackend.cpp:966-983 | a wait that returns true reports threads that are held, each with its true PC or 0 |
| `SignalParkTheorems.ResumeTrueMeansEmpty` | runtime/platform/AndroidSignalQuiescenceBackend.cpp:341-375 | resume returns true only at an instant with no handler in flight, and no handler can park again until a request opens an epoch |
| `SignalParkTheorems.WakeMissesExactlyStrandable` | runtime/platform/AndroidSignalQuiescenceBackend.cpp:317-321 | after the epoch is cleared, a handler can still fall asleep with no wake to come if and only if it is already past its loop test |
| `SignalParkTheorems.SleepersLeave` | runtime/platform/AndroidSignalQuiescenceBackend.cpp:317-323 | a handler asleep when the wake is issued never sleeps again and leaves after two more of its own steps |
| `SignalParkTheorems.LostWake` | runtime/platform/AndroidSignalQuiescenceBackend.cpp:317-320 | a reachable run in which the wake has been issued, resume has returned false and a handler is asleep |
| `CoordinatorLaws.ValidInventory` | runtime/ThreadQuiescenceCoordinator.cpp:51-67 | accepts exactly the non-empty inventories that fit, have positive distinct IDs and contain the caller, and returns them sorted with the same elements |
| `CoordinatorLaws.FinalInventoryContainsEveryRequested` | runtime/ThreadQuiescenceCoordinator.cpp:69-79 | true exactly when the requested set is a subset of the final inventory |
| `CoordinatorLaws.MatchesInOrder` | runtime/ThreadQuiescenceCoordinator.cpp:81-99 | the walk in step succeeds exactly when removing the caller leaves the requested list |
| `CoordinatorLaws.FinalInventoryIsExact` | runtime/ThreadQuiescenceCoordinator.cpp:81-99 | true exactly when the final inventory, as a set, is the requested threads plus the caller, who was not requested |
| `CoordinatorLaws.LawfulCalls` | runtime/ThreadQuiescenceCoordinator.cpp:155-317 | what the running account of calls means: the caller is never parked, no thread is requested twice, no request follows a resume, no resume follows a successful one, waited sets strictly grow |
| `CoordinatorLaws.ResumedAfterParks` | runtime/ThreadQuiescenceCoordinator.cpp:28-32 | every park request is followed by a resume |
| `CoordinatorLaws.TallyMeans` | runtime/ThreadQuiescenceCoordinator.cpp:155-317 | the account's figures in terms of the calls made |
| `Coordinators.RoomForOneMore` | runtime/ThreadQuiescenceCoordinator.cpp:202-205 | by counting, the request buffer always has room, so the capacity abort inside the request loop cannot happen |
| `Coordinators.GrowthIsStrict` | runtime/ThreadQuiescenceCoordinator.cpp:192-297 | a pass grows the requested set exactly when its inventory lists an unrequested peer |
| `Coordinators.FirstBadSnapshot` | runtime/ThreadQuiescenceCoordinator.cpp:241-265 | the first snapshot with a wrong thread, a wrong epoch, an unusable PC or a PC in the target |
| `Coordinators.Coordinator.Prepare` | runtime/ThreadQuiescenceCoordinator.cpp:101-153 | result and state for every configuration, table and enumeration: Ok exactly when the one enumeration succeeds with positive distinct IDs that contain the caller, and which failure otherwise; no thread is stopped |
| `Coordinators.Coordinator.ListThreads` | runtime/ThreadQuiescenceCoordinator.cpp:44-67 | one enumeration and its status, exactly, with a sorted inventory of the same IDs on success |
| `Coordinators.Coordinator.AbortEnter` | runtime/ThreadQuiescenceCoordinator.cpp:155-167 | resumes whatever may have been parked and reports a failed resume instead of the cause |
| `Coordinators.Coordinator.RequestPeers` | runtime/ThreadQuiescenceCoordinator.cpp:194-215 | every listed thread but the caller ends up requested exactly once, or enter has given up |
| `Coordinators.Coordinator.AwaitParked` | runtime/ThreadQuiescenceCoordinator.cpp:217-234 | the wait is for exactly the requested threads and must return as many snapshots |
| `Coordinators.Coordinator.CheckSnapshots` | runtime/ThreadQuiescenceCoordinator.cpp:235-265 | accepts only snapshots that are, in order, the requested threads at the configured epoch, at usable PCs outside the target |
| `Coordinators.Coordinator.ConfirmInventory` | runtime/ThreadQuiescenceCoordinator.cpp:267-297 | becomes exclusive only on an exact inventory; otherwise every requested thread is still listed and someone else is too |
| `Coordinators.Coordinator.Enter` | runtime/ThreadQuiescenceCoordinator.cpp:169-300 | exclusive with every peer parked and checked, or failed with everything offered a resume; at most maximumThreads passes, whatever the configured cap |
| `Coordinators.Coordinator.Leave` | runtime/ThreadQuiescenceCoordinator.cpp:302-317 | released, or failed with the resume still owed to the destructor |
| `Coordinators.Coordinator.Destroy` | runtime/ThreadQuiescenceCoordinator.cpp:28-32 | the calls of the whole lifetime obey every law |
| `Coordinators.Lifetime` | runtime/ThreadQuiescenceCoordinator.cpp:23-317 | any operations in any order with any answers, then destruction: every park is resumed, resume is called at most twice, and all laws above hold |
| `StopTheWorld.AcceptedSnapshotsAreTrue` | runtime/ThreadQuiescenceCoordinator.cpp:235-265 | snapshots the coordinator accepts from a successful wait give every peer's true PC, outside the target |
| `StopTheWorld.WorldStaysStopped` | runtime/platform/AndroidSignalQuiescenceBackend.cpp:317-323 | a stopped world stays stopped through anything the other threads do |
| `StopTheWorld.EnterStopsTheWorld` | runtime/ThreadQuiescenceCoordinator.cpp:169-300 | when the calls of a successful enter are answered by the signal backend under any interleaving, the process is exactly the caller and the requested peers, and every peer is in the handler with its true PC outside the patch range, until the owner acts again |
| `StopTheWorld.ExclusiveMeansStopped` | runtime/ThreadQuiescenceCoordinator.cpp:169-300 | the same for a coordinator in its exclusive state, by the calls it has recorded |
| `StopTheWorld.StoppedRun` | runtime/ThreadQuiescenceCoordinator.cpp:169-300 | a run with one parked peer that meets all assumptions of the main theorem |
| `StopTheWorld.ResumeDrains` | runtime/platform/AndroidSignalQuiescenceBackend.cpp:997-1008 | a resume answered with success has left no handler with an epoch |
| `PatchPlanner.AcceptedWords` | runtime/Arm64PatchPlanner.cpp:33-47 | the masks reject exactly the words of the listed A64 classes: address generation, literal loads, immediate, compare, test and register branches, and B.cond; every BC.cond is accepted |
| `PatchPlanner.AcceptedBranch` | runtime/Arm64PatchPlanner.cpp:37-38 | BC.EQ is accepted although it is a conditional branch |
| `PatchPlanner.AcceptedPcReaders` | runtime/Arm64PatchPlanner.cpp:33-47 | three words outside the listed classes that read the program counter are accepted |
| `PatchPlanner.Append` | runtime/Arm64PatchPlanner.cpp:14-24 | appends the little-endian bytes of the value |
| `PatchPlanner.AppendAbsoluteBranch` | runtime/Arm64PatchPlanner.cpp:56-60 | appends the load, the branch and the literal |
| `PatchPlanner.CheckPrologue` | runtime/Arm64PatchPlanner.cpp:80-90 | the first refusal in prologue order |
| `PatchPlanner.PlanArm64InlineHook` | runtime/Arm64PatchPlanner.cpp:64-109 | the plan or the error for every target, replacement and prologue |
| `Trampolines.AbsoluteBranchRuns` | runtime/Arm64PatchPlanner.cpp:56-60 | two instructions reach the address and change only x17 |
| `Trampolines.EntryPatchReachesReplacement` | runtime/Arm64PatchPlanner.cpp:95-96 | the entry patch of a ready plan reaches the replacement and changes only x17 |
| `StolenWords.ReachableHasPath` | runtime/Arm64PatchPlanner.cpp:98-107 | every place the computed set contains is at the end of a path from the first stolen word |
| `StolenWords.ReachableIsClosed` | runtime/Arm64PatchPlanner.cpp:98-107 | and the set is closed under every step that stays among the words |
| `StolenWords.OneBranchEscapesExactly` | runtime/Arm64PatchPlanner.cpp:37-38 | with one BC.cond at most, control can leave the stolen words exactly when it goes outside them |
| `StolenWords.DeadBranchNeverEscapes` | runtime/Arm64PatchPlanner.cpp:37-38 | a BC.cond that goes outside is harmless behind one on the same condition that skips it, if the words in between keep the flags |
| `Relocation.FollowsWalk` | runtime/Arm64PatchPlanner.cpp:98-107 | wherever the stolen words lie, the machine follows the same walk through them |
| `Relocation.TrampolineResumes` | runtime/Arm64PatchPlanner.cpp:98-107 | the trampoline reaches the resume address three steps after the words end, and is in its own code until then |
| `Relocation.RelocatedRuns` | runtime/Arm64PatchPlanner.cpp:98-107 | words that cannot escape leave the trampoline just when they leave the target, in the same state up to x17 |
| `Relocation.RelocatedResumes` | runtime/Arm64PatchPlanner.cpp:98-107 | and they leave the target only at the resume address |
| `RelocationLimits.EscapeChangesMeaning` | runtime/Arm64PatchPlanner.cpp:98-107 | words that can escape do not mean the same in a trampoline far away |
| `RelocationLimits.TrampolinePreservesMeaning` | runtime/Arm64PatchPlanner.cpp:64-109 | for any set of flag-keeping words: over every instruction set in which those keep the flags and the other stolen words are position independent, every core and every placement, the trampoline of a ready plan leaves just when the stolen words leave and in the same state up to x17, if and only if no branch that can be reached and taken among them leaves them |
| `RelocationLimits.BehindLosesMeaning` | runtime/Arm64PatchInstallTransaction.cpp:103-147 | a trampoline right behind a prologue without BC.cond never gets on |
| `RelocationLimits.StraightPrologueMeans` | runtime/Arm64PatchInstallTransaction.cpp:103-147 | for such a prologue and every trampoline address that validPlan admits: the meaning is kept exactly when the trampoline is not right behind the stolen words |
| `SupportedPrologues.BranchPrologues` | runtime/Arm64PatchPlanner.cpp:37-38 | the planner is ready for a prologue whose BC.EQ leaves the stolen words and for one whose BC.EQ does not; only the first can escape |
| `SupportedPrologues.SupportedProloguesRelocate` | runtime/StaticArm64Trampoline.cpp:26-37 | both prologues of the supported device profile give ready plans whose trampolines preserve their meaning at every admitted address but the one right behind |
| `PrecompiledTrampolines.LoadRuns` | runtime/arch/arm64/Nx769jOnTransactTrampoline.S:8-16 | the five loading instructions put the address of the cell in x16 and what memory holds there in x17, and go to the words, or to the unbound exit if it is 0 |
| `PrecompiledTrampolines.PrecompiledRuns` | runtime/arch/arm64/Nx769jOnTransactTrampoline.S:6-23 | with an address in the cell, the precompiled trampoline leaves for it just when the target leaves its words, in the same state up to x16 and x17, for words that spare those two and cannot escape |
| `PrecompiledTrampolines.UnboundReturns` | runtime/arch/arm64/Nx769jOnTransactTrampoline.S:16-27 | with 0 in the cell it returns -ENOSYS to the caller, changes no other register but x16 and x17, and runs none of the stolen words |
| `SupportedPrologues.PrecompiledCanRun` | runtime/arch/arm64/Nx769jOnTransactTrampoline.S:6-27 | for both supported prologues an instruction set and a memory that meet all hypotheses |
| `Trampolines.ReadyWordsAccepted` | runtime/Arm64PatchPlanner.cpp:80-90 | a ready plan has accepted words only |
| `PatchLaws.ValidatedPlansArePlanned` | runtime/Arm64PatchInstallTransaction.cpp:103-147 | a plan validPlan accepts has exactly the planner's bytes for its target, decoded replacement and original bytes |
| `PatchLaws.PlannerPlansValidate` | runtime/Arm64PatchInstallTransaction.cpp:103-147 | a ready plan passes validPlan exactly for the trampoline addresses that are non-zero, aligned, non-wrapping and off the target |
| `PatchLaws.WritesAreJustified` | runtime/Arm64PatchInstallTransaction.cpp:201-334 | in a lawful trace every write lies between a successful enter and its leave, and the calls since the enter are exactly those that must precede it |
| `PatchLaws.EntersAreLeft` | runtime/Arm64PatchInstallTransaction.cpp:40-68 | every successful enter gets one leave, or two when the first fails |
| `PatchLaws.CommitSettles` | runtime/Arm64PatchInstallTransaction.cpp:201-282 | an untainted commit leaves the entry patch if committed and the first contents otherwise |
| `PatchLaws.RollbackSettles` | runtime/Arm64PatchInstallTransaction.cpp:284-334 | an untainted rollback of an undisturbed patch restores the first contents, and does not report a mismatch |
| `PatchTransactions.ExclusiveWindow.Enter` | runtime/Arm64PatchInstallTransaction.cpp:49-52 | entered exactly on success |
| `PatchTransactions.ExclusiveWindow.Leave` | runtime/Arm64PatchInstallTransaction.cpp:54-63 | a failed leave stays owed |
| `PatchTransactions.ExclusiveWindow.Destroy` | runtime/Arm64PatchInstallTransaction.cpp:43-47 | the owed leave is called; no window is left open |
| `PatchTransactions.InstallTransaction.Prepare` | runtime/Arm64PatchInstallTransaction.cpp:149-184 | the status for every plan, backend, read and memory: prepared exactly when the plan is valid, the backend complete, the read succeeds and the target holds the original bytes; nothing is written |
| `PatchTransactions.InstallTransaction.KeepOriginal` | runtime/Arm64PatchInstallTransaction.cpp:234-258 | the trampoline is written and synchronized, or bound, and the target is untouched on every path |
| `PatchTransactions.InstallTransaction.WriteEntry` | runtime/Arm64PatchInstallTransaction.cpp:265-281 | the entry patch is in place, or the original bytes are back, or the status is kRollbackFailed |
| `PatchTransactions.InstallTransaction.AutomaticRollback` | runtime/Arm64PatchInstallTransaction.cpp:186-199 | restores the original bytes or reports the failure |
| `PatchTransactions.InstallTransaction.Commit` | runtime/Arm64PatchInstallTransaction.cpp:201-282 | for every success, failure and partial write: patch over original, or target as found, or a status that says otherwise; nothing outside the two ranges changes |
| `PatchTransactions.InstallTransaction.Rollback` | runtime/Arm64PatchInstallTransaction.cpp:284-334 | for every success, failure and partial write: original over patch, or target as found, or a status that says otherwise |
| `PatchTransactions.Lifetime` | runtime/Arm64PatchInstallTransaction.cpp:149-334 | any operations in any order, any answers, any foreign writes: the calls are lawful, and unless a status warned or others wrote to it the target holds the entry patch if committed and its first contents if not |
| `HookedProgram.CommittedHookReplaces` | runtime/Arm64PatchInstallTransaction.cpp:201-282 | after a successful commit of a planner's plan, with either kind of trampoline, entering the target ends in the replacement with only x17 changed |
| `HookedProgram.CommittedHookRuns` | runtime/Arm64PatchInstallTransaction.cpp:201-282 | and entering the written trampoline does what entering the target did before, up to x17, if no stolen branch can leave the stolen words and the trampoline is not right behind them |
| `HookedProgram.CommittedPrecompiledRuns` | runtime/Arm64PatchInstallTransaction.cpp:201-282 | the same for a precompiled trampoline with the resume address in its cell, up to x16 and x17 |
| `Parcels.TextRoundTrip` | runtime/platform/Android14CameraDeviceUserRouter.cpp:248-251 | a written string reads back, wherever it lies |
| `ParcelLayouts.ThenIsProper` | runtime/platform/Android14CameraDeviceUserRouter.cpp:128-183 | a sequence of layouts never looks past its own items if neither part does |
| `ParcelLayouts.CountedIsProper` | runtime/platform/Android14CameraDeviceUserRouter.cpp:149-169 | likewise for counted repetitions |
| `ParcelLayouts.MetadataIsProper` | runtime/platform/Android14CameraDeviceUserRouter.cpp:92-108 | likewise for metadata blobs, inline or behind a descriptor |
| `RequestRewriter.RequestTailIsProper` | runtime/platform/Android14CameraDeviceUserRouter.cpp:128-183 | likewise for everything of a request behind its camera ID |
| `CaptureRequests.ParseIsExact` | runtime/platform/Android14CameraDeviceUserRouter.cpp:185-213 | a parcel that parses is its header, 1 to 256 requests and a flag, with nothing left over |
| `RequestRenaming.RenamedParses` | runtime/platform/Android14CameraDeviceUserRouter.cpp:215-277 | the parcel with every ID replaced by a NUL-free ID parses under it to the same requests with only the IDs changed |
| `RequestRenaming.NulBreaksRenaming` | runtime/platform/Android14CameraDeviceUserRouter.cpp:248-251 | with a NUL byte in the ID the result does not parse under it |
| `RequestRenaming.RenamedParsesExactly` | runtime/platform/Android14CameraDeviceUserRouter.cpp:215-277 | so the output parses under the device ID if and only if that ID has no NUL byte |
| `RequestRenaming.SpliceRenames` | runtime/platform/Android14CameraDeviceUserRouter.cpp:237-268 | the one-pass splice over the observed spans is the batch with every ID replaced and all other items in order |
| `Splices.OnePassIsSuccessive` | runtime/platform/Android14CameraDeviceUserRouter.cpp:237-268 | one pass over N spans equals N single replacements |
| `Splices.MappedIsComposed` | runtime/platform/Android14CameraDeviceUserRouter.cpp:252-272 | the one-pass cursor is the composition of N single remappings |
| `Splices.ComposedIsMonotone` | runtime/platform/Android14CameraIdRewriter.cpp:44-52 | moving the cursor forward never moves its image back |
| `Splices.EndGoesToEnd` | runtime/platform/Android14CameraIdRewriter.cpp:44-52 | the end of the input goes to the end of the output |
| `Splices.CursorStaysInside` | runtime/platform/Android14CameraDeviceUserRouter.cpp:269-274 | a cursor inside the input maps inside the output |
| `RequestRewriter.ReadMetadata` | runtime/platform/Android14CameraDeviceUserRouter.cpp:92-108 | succeeds exactly on the metadata layout and ends behind it |
| `RequestRewriter.ReadSurface` | runtime/platform/Android14CameraDeviceUserRouter.cpp:110-121 | succeeds exactly on the surface layout and ends behind it |
| `RequestRewriter.ReadTail` | runtime/platform/Android14CameraDeviceUserRouter.cpp:141-183 | succeeds exactly on the rest of a request and ends behind it |
| `RequestRewriter.ReadIdentifier` | runtime/platform/Android14CameraDeviceUserRouter.cpp:48-65 | the ASCII identifier and its span |
| `RequestRewriter.ReadHeader` | runtime/platform/Android14CameraDeviceUserRouter.cpp:67-90 | succeeds exactly on a header with the descriptor |
| `RequestRewriter.ObserveCaptureRequest` | runtime/platform/Android14CameraDeviceUserRouter.cpp:128-183 | succeeds exactly on a request for the ID, and notes the span of the ID |
| `RequestRewriter.ObserveRequestOffsets` | runtime/platform/Android14CameraDeviceUserRouter.cpp:185-213 | succeeds exactly on parcels that parse, returns the spans of all IDs and restores the cursor |
| `RequestRewriter.SpliceIds` | runtime/platform/Android14CameraDeviceUserRouter.cpp:231-274 | output and cursor of the splicing loop; its range checks cannot fail |
| `RequestRewriter.RewriteRequestIds` | runtime/platform/Android14CameraDeviceUserRouter.cpp:215-277 | succeeds exactly for a writable device ID, a parcel that parses and a cursor inside it; the output is the renamed batch, the cursor mapped, the input unchanged |
| `ParcelObserver.DecimalDenotes` | runtime/platform/Android14ParcelObserver.cpp:81-88 | the decimal rendering of an integer ID denotes it |
| `ParcelObserver.ReadAndCheckHeader` | runtime/platform/Android14ParcelObserver.cpp:48-74 | malformed, wrong or accepted headers, exactly |
| `ParcelObserver.DecodePayload` | runtime/platform/Android14ParcelObserver.cpp:124-160 | the ID, its span and the package name for every shape |
| `ParcelObserver.Observe` | runtime/platform/Android14ParcelObserver.cpp:92-166 | status and payload for every shape and parcel; the cursor is restored |
| `CameraIdRewriter.ParseNonNegativeInteger` | runtime/platform/Android14CameraIdRewriter.cpp:12-26 | exactly the digit strings whose number fits 32 bits, with that number |
| `CameraIdRewriter.RewriteCameraId` | runtime/platform/Android14CameraIdRewriter.cpp:56-120 | the status for every observation, replacement, input and output, no output and the input itself included; a rewritten output is the input with the ID replaced and the cursor moved along, and the input never changes |
| `CameraIdRewriter.ObserveAfterRewrite` | runtime/platform/Android14CameraIdRewriter.cpp:56-120 | observing the rewritten parcel finds the replacement, the same package name and the same items behind the ID |
| `CameraIdRewriter.ObservedIdIs` | runtime/platform/Android14CameraIdRewriter.cpp:82-97 | the observed ID is the same number for integer shapes, and the replacement itself exactly when it has no NUL byte |
| `StatusReply.ReplyReadsBack` | runtime/platform/Android14CameraListenerFilter.cpp:239-248 | a written reply decodes to what was written |
| `StatusReply.VisibleKeeps` | runtime/platform/Android14CameraListenerFilter.cpp:342-353 | every record stays as often as it was there, those of 1000 and 1001 not at all |
| `StatusReply.VisibleStays` | runtime/platform/Android14CameraListenerFilter.cpp:342-353 | records without internal IDs are left as they are |
| `StatusReply.FilteredReplySays` | runtime/platform/Android14CameraListenerFilter.cpp:316-383 | a filtered reply decodes to the visible records in order with a matching count, and filtering it again changes nothing |
| `ListenerFilter.ReadRecord` | runtime/platform/Android14CameraListenerFilter.cpp:218-237 | succeeds exactly on a record and returns it |
| `ListenerFilter.ReadRecords` | runtime/platform/Android14CameraListenerFilter.cpp:339-353 | the visible records and the number of others |
| `ListenerFilter.WriteRecord` | runtime/platform/Android14CameraListenerFilter.cpp:239-248 | appends the encoded record |
| `ListenerFilter.FilterStatusReply` | runtime/platform/Android14CameraListenerFilter.cpp:316-383 | the status for every reply; only a filtered reply changes, to the visible records with the cursor at 0 |
| `Sha256Spec.FoldSplit` | runtime/RuntimeAbiGuard.cpp:106-119 | folding whole blocks and then the rest is folding everything |
| `Sha256Stream.Schedule` | runtime/RuntimeAbiGuard.cpp:147-160 | the message schedule of FIPS 180-4 section 6.2.2 |
| `Sha256Stream.Transform` | runtime/RuntimeAbiGuard.cpp:146-193 | the compression function of FIPS 180-4 section 6.2.2 |
| `Sha256Stream.PaddedInParts` | runtime/RuntimeAbiGuard.cpp:121-131 | both padding cases make the padding of FIPS 180-4 section 5.1.1 |
| `Sha256Stream.Sha256.Update` | runtime/RuntimeAbiGuard.cpp:106-119 | state and buffer account for everything fed so far, whatever the sizes |
| `Sha256Stream.Sha256.Finish` | runtime/RuntimeAbiGuard.cpp:121-143 | the digest of everything fed |
| `Sha256Stream.HashChunks` | runtime/RuntimeAbiGuard.cpp:104-203 | however a message is cut into updates, the digest is SHA-256 of the whole |
| `ProtocolEvidence.MasksGrow` | runtime/Android14ProtocolEvidence.cpp:72-97 | masks only grow |
| `ProtocolEvidence.TornVerdict` | runtime/Android14ProtocolEvidence.cpp:99-112 | masks loaded at successive instants give the verdict of one of them |
| `ProtocolEvidence.VerdictIsReal` | runtime/Android14ProtocolEvidence.cpp:99-112 | under any interleaving with recorders, the reported verdict is the one the masks had at some instant during the snapshot |
| `ProtocolEvidence.OrderDoesNotMatter` | runtime/Android14ProtocolEvidence.cpp:72-97 | runs that recorded the same observations, in any order and number, end at rest with the same masks |
| `ProtocolEvidence.ClassifiedIsSeen` | runtime/Android14ProtocolEvidence.cpp:78-96 | at every instant what is classified has been seen |
| `ProtocolEvidence.TornMasks` | runtime/Android14ProtocolEvidence.cpp:99-106 | a snapshot can show a valid role as unseen, which no instant does |
| `ProtocolEvidence.SnapshotOfAnInstant` | runtime/Android14ProtocolEvidence.cpp:99-106 | under any interleaving, the four masks are those of no instant if and only if some mask gains a bit after its own load and, later, another gains one before its own load |
| `ProtocolEvidence.QuietSnapshot` | runtime/Android14ProtocolEvidence.cpp:99-106 | so they are when no bit is set between the first load and the last |
| `ProtocolEvidence.SnapshotOfNoInstant` | runtime/Android14ProtocolEvidence.cpp:99-106 | a snapshot with a role classified but not seen is torn |
| `FrameFormat.PublishedIsShown` | native/frame_publisher.c:288-298 | the publisher and the loader accept the same complete frames |
| `FrameFormat.LoadableButEmpty` | hal/src/RgbFrame.cpp:39-47 | load accepts a file without pixels exactly for I420 headers of odd size |
| `FrameFormat.EmptyFileLoads` | hal/src/RgbFrame.cpp:57-84 | such a file for every odd size, from 1 by 1 on |
| `FrameStores.PublishFrame` | native/stream_provider.c:76-118 | the new frame is in place or the old one still is, and nothing else ever is, whichever operation fails |
| `FrameStores.Transfer` | native/frame_publisher.c:315-326 | the payload passes through the buffer unchanged |
| `FrameStores.RelayFrame` | native/frame_publisher.c:300-337 | one checked frame into place, or the old one stays |
| `FrameStores.Relay` | native/frame_publisher.c:278-338 | every content the published file ever gets is a complete frame that loads and shows; on a clean end the frames are the input, none lost or changed |
| `RgbFrames.MappedIsInside` | hal/src/RgbFrame.cpp:130-183 | whatever the transform, a mapped pixel lies in the source |
| `RgbFrames.DefaultIsIdentity` | hal/src/RgbFrame.cpp:130-183 | the default transform at the source's own size is the identity |
| `RgbFrames.RotationTurnsTheFill` | hal/src/RgbFrame.cpp:134-154 | the fill with a rotation, turned back, is the fill without it, pixel by pixel |
| `RgbFrames.ZoomedInIsCovered` | hal/src/RgbFrame.cpp:130-183 | at a scale of at least 1 every target pixel shows a source pixel, whatever the sizes, rotation and centre |
| `RgbFrames.GreyFrameIsNeutral` | hal/src/RgbFrame.cpp:185-210 | a grey picture fills every buffer with neutral chroma, whatever the transform |
| `RgbFrames.PlanarReadsInside` | hal/src/RgbFrame.cpp:194-202 | every I420 read is in bounds |
| `RgbFrames.PackedReadsInside` | hal/src/RgbFrame.cpp:203-204 | every RGB read is in bounds |
| `RgbFrames.RgbFrame.Load` | hal/src/RgbFrame.cpp:57-84 | accepts exactly the loadable files; a rejected file changes nothing |
| `YuvLayouts.LongRowsAreApart` | hal/src/RgbFrame.cpp:242-247 | the stride test keeps luma rows from overlapping |
| `YuvLayouts.PlanarIsSeparate` | hal/include/vcam/PatternGenerator.h:12-20 | three planes one behind the other share no byte |
| `YuvLayouts.InterleavedIsSeparate` | hal/include/vcam/PatternGenerator.h:12-20 | nor do a luma plane and interleaved chroma, in either order |
| `RgbFrames.RgbFrame.FillYuv420` | hal/src/RgbFrame.cpp:239-266 | succeeds exactly when the checks pass; then every luma and chroma sample is where the layout puts it, for any transform and any layout whose planes share no byte, and no other byte of the buffer changes |
| `RgbFrames.ProvidedIsShown` | native/stream_provider.c:76-118 | a published picture is shown exactly when its size is even and within the limits |
| `RgbFrames.PublishedPictureIsFilled` | hal/src/RgbFrame.cpp:185-202 | sampling a published picture at its own size returns exactly its planes |
| `RgbFrames.PublishLoadFill` | native/stream_provider.c:76-118 | succeeds exactly when the publication does, and then the planes come out of the buffer as they went in |

## Left out

- Weak memory orderings: every atomic operation is sequentially consistent.
- Thread IDs are not reused while a run lasts, and parked threads create no threads.
- Enumerating threads is one atomic snapshot of the process; reading it from procfs is not modelled.
- Deadlines are a finite number of further attempts; clocks are not modelled.
- Preparing and shutting down the signal backend, installing and querying signal actions, and choosing a signal.
- The wake of waiters on the handler count and on the parked sequence: the owner may look again at any time instead.
- Instruction memory and data memory are separate in the A64 model, and instruction caches are not modelled beyond the order of the synchronization calls.
- PatchTransactions.InstallTransaction.Commit: assumes that a backend write touches only its own range and that no other thread writes to the two ranges inside the window.
- HookedProgram.CommittedPrecompiledRuns: that the cell holds the resume address is a hypothesis on memory, since binding is a callback that succeeds or fails; what ADRP, ADD, LDAR, CBZ, MOV and RET do is a hypothesis on the instruction set.
- Relocation.MeansTheSame and the results about it: a stop inside the trampoline, such as a signal or a fault, is not modelled.
- Binder objects and descriptors are single items and positions count items, not bytes.
- Parcel allocation failures, and the size limits libbinder puts on vectors, are not modelled, so kCopyFailed and the allocation cases of kWriteFailed do not occur.
- StatusReply.FilteredReplySays: reading a binder status is a parameter of which only is assumed that a written success reads back; other exception codes and reply headers are whatever it says.
- RequestRewriter.RewriteRequestIds: the interface descriptor is a parameter; in the source it is android.hardware.camera2.ICameraDeviceUser.
- ParcelObserver.Observe: the payload shape comes from the transaction classifier, which is not modelled, and a null parcel is not modelled.
- The listener registry and the listener callbacks.
- Other parts of the ABI guard: module lookup, ELF notes, recipe parsing, hexadecimal and decimal parsing.
- RgbFrames.Mapped and what is proved of it: real numbers, no floating-point rounding.
- RgbFrames.RgbFrame.FillYuv420: the three pointers lie in one buffer, which every written place must fit; offsets do not wrap.
- Reloading a frame only when its header changed, RGB row output and thumbnails.
- FrameStores.PublishFrame: a row of a plane is its first bytes; line padding is not modelled, nor are the frame dimensions the decoder chooses.
- Decoding, sockets, processes, the routes and the user interface.
