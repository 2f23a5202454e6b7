# Raft: verified models of its protocols, logs and printers

This project models the parts of the Raft repository whose behaviour is hardest to see by reading one function at a time, and proves what those parts promise for every input and every run.

- **Machine convergence.** An old Computer service is handed over to a new generation by a 12-phase reducer that several workers drive through an optimistic load, reduce, compare-and-swap loop. `MachineConvergence` is the reducer, `ConvergenceContract` what it answers field by field and effect by effect, `ConvergenceInvariants` what one transition keeps, `ConvergenceRuns` what whole runs show, `ConvergenceProgress` from which records an operation can still be finalized, `MachineOperationStore` the concurrent system of workers over one durable cell, and `MachineOperationRuntime` the store and the retry loop as imperative code.
- **Occupancy evidence.** A writer keeps a map of active API requests and a rotating two-segment log; a reader rebuilds the map from what is left of the log. `TransportEvidence` is the writer and the observer on values, `EvidenceEvents` what the observer does on each event, `OccupancyHistory` and `EvidenceRuns` what their runs keep, `EvidenceRows` the length of its rows, `EvidenceLimits` the limit of a line, `OccupancyReader` the reader, `OccupancyMeaning` what its view says about the rows, `OccupancyEvidence` the reading of the log from end to end, `EvidenceWriter` the writer and the observer as objects.
- **Startup closure** (`StartupClosure`). The bundler's repeated walk over a module graph whose edges depend on names found during the walk.
- **Trace reader** (`TraceLines`, `TraceSpans`, `TraceForest`, `TraceMargin`, `TraceSiblings`, `TraceRenderer`). Lines out of a stream of chunks, deduplication of spans, and the rendering of an arbitrary parent relation, cycles included.
- **SQL bootstrap** (`SqlLexer`, `SqlSplitter`, `SqlTokens`, `SqlBody`, `BootstrapPlan`, `BootstrapMeaning`). A statement splitter with index skips against a character-by-character lexer, the skipping of leading comments, and the checks that order the bootstrap statements.
- **Queues, printers and orders** (`LifecycleQueue`, `CrashHealth`, `WindowsArguments`, `CodeSpans`, `VersionOrder` over `Lexicographic`).

`dafny verify dfyconfig.toml` verifies the project.

## What the code does not promise

These statements a reader might expect are false of the code. The model keeps the code's behaviour, shows the failing inputs and states the exact condition.

- Not every operation past its receipt can be finalized. One more `target_supervisor_live` report after the receipt pulls the phase back while the receipt stays, and no event ever gets the operation to `finalized` (`LateLiveReportStrands`; every fresh operation with a service to stop can get there, `FreshOperationStrands`). `FinalizableIff` gives the condition on a record under which it can still be finalized.
- The generation under a live target can change if it is the empty string, because the code tests the string for truth (`EmptyGenerationReplaced`; exact condition in `LiveGenerationChanges`). The evidence theorems therefore assume non-empty generations.
- How a trace file is cut into chunks is visible for a complete line that is over the byte cap as it stands but would not be rejected after its newline arrived: its carriage return is what exceeds the cap, or it is blank (`CutsReadDifferently` gives a text and two cuttings, `ChunksMatter` the general case; exact condition in `ChunkingInvisibleIff`).
- The writer's limit of 2048 bytes is not a limit on what one call of `createEvidenceWriter` writes, given arbitrary fields: a line of exactly 2048 bytes that makes the segments rotate is encoded again under a later number and can come out at 2049 (`OverlongCall`; exact condition in `OverlongIff`). The observer's own rows are too short for that: `RowsAreShort` bounds them by 400 bytes and a full checkpoint by 1900, so on its runs the limit holds and nothing is dropped (`LinesWithinLimit`, `NothingDropped`).
- A degradation query whose clock is behind a recorded crash can miss the threshold that the full history meets (`ClockBehindMisses`; exact condition for every run and query in `VerdictExactIff`).

## Model

| member | source | states |
|---|---|---|
| `MachineConvergence.KeyTextIsKey` | packages/computer/src/machineConvergenceReducer.ts:226-249 | Within one operation two effect-key strings are equal exactly when their kind and their epoch, generation or process part are, so modelling keys as values loses nothing. |
| `MachineConvergence.KeyTexts` | packages/computer/src/machineConvergenceReducer.ts:226-336 | The key strings of the five kinds of effects. |
| `ConvergenceContract.CreatedFields` | packages/computer/src/machineConvergenceReducer.ts:85-111 | Every field of a new record. |
| `ConvergenceContract.FirstServiceIsFirst` | packages/computer/src/machineConvergenceReducer.ts:241-254 | The captured service is the first captured process in the service role. |
| `ConvergenceContract.AnswersExactly` | packages/computer/src/machineConvergenceReducer.ts:148-345 | For every record, expected version and event: exactly when the event is applied, exactly which refusal it gets, and that everything else is a replay; a reconcile is a replay exactly when nothing is left to do. |
| `ConvergenceContract.RecordAfter` | packages/computer/src/machineConvergenceReducer.ts:156-345 | After a transition, what each field of the record is, and that all others stay. |
| `ConvergenceContract.EffectsExactly` | packages/computer/src/machineConvergenceReducer.ts:226-342 | A transition hands out at most one effect: the one its event asks for (kind, key, process and generation), exactly when no intent with that key is on record; a missing coordinator is spawned before target live, a missing standby before the stop, and so on. |
| `ConvergenceInvariants.CreatedInv` | packages/computer/src/machineConvergenceReducer.ts:85-111 | A created record satisfies the invariant that every later statement starts from. |
| `ConvergenceInvariants.AdvanceWithKeeps` | packages/computer/src/machineConvergenceReducer.ts:124-146 | Recording an effect appends exactly what it returns, changes nothing else but the version, and never produces a second intent with the same key. |
| `ConvergenceInvariants.CrashKeepsInv` | packages/computer/src/machineConvergenceReducer.ts:193-236 | A crash of any leg keeps the invariant and the floors, although a target crash takes the phase back and clears later evidence. |
| `ConvergenceInvariants.StopIsHandedOut` | packages/computer/src/machineConvergenceReducer.ts:237-250 | An applied stop found both legs and the captured service, and its intent is new, so it is always handed out. |
| `ConvergenceInvariants.ReduceStep` | packages/computer/src/machineConvergenceReducer.ts:148-345 | Every applied transition raises the version by one, records exactly the effects it returns, keeps all floors and the invariant (target present exactly at or past target live, legs, outbox, receipt, one stop intent); every other answer leaves the record as it was. |
| `ConvergenceInvariants.ClaimRaisesEpoch` | packages/computer/src/machineConvergenceReducer.ts:157-170 | A granted claim is strictly above the current epoch, and no other transition changes the epoch. |
| `ConvergenceInvariants.GenerationMoves` | packages/computer/src/machineConvergenceReducer.ts:193-279 | Only an allocation on an empty generation or a target crash changes the observed generation. |
| `ConvergenceInvariants.LiveGenerationChanges` | packages/computer/src/machineConvergenceReducer.ts:264-279 | Under a live target the generation changes if and only if an allocation with a non-empty name meets the empty string. |
| `ConvergenceRuns.RunInv` | packages/computer/src/machineConvergenceReducer.ts:148-345 | The invariant holds after every run of inputs, stale and rejected ones included. |
| `ConvergenceRuns.RunKeepsFloors` | packages/computer/src/machineConvergenceReducer.ts:152-345 | Between any two moments of a run the phase never falls back below stop-claimed or old-service-dead once reached, the epoch never falls, the observed-dead list and the intents only extend, identity and acceptance stay, and a finalized record never changes. |
| `ConvergenceRuns.EpochsGrantedOnce` | packages/computer/src/machineConvergenceReducer.ts:157-170 | Of two grants in a run the later one has the strictly higher epoch. |
| `ConvergenceRuns.StopAppliedOnce` | packages/computer/src/machineConvergenceReducer.ts:237-250 | In a run the stop is applied at most once, with both legs present, for the captured service, handing out its intent; from then on the phase stays at or past stop-claimed. |
| `ConvergenceRuns.EffectsAreRecorded` | packages/computer/src/machineConvergenceReducer.ts:124-146 | The intents on the record are exactly the effects returned over the run, in order, without a repeated key. |
| `ConvergenceRuns.Causality` | packages/computer/src/machineConvergenceReducer.ts:237-316 | At every moment what the record shows (stop claimed, service dead, target live, converged, outbox, receipt) rests on transitions that happened in that order and have not been undone by a target crash. |
| `ConvergenceRuns.MilestonesAreGenuine` | packages/computer/src/machineConvergenceReducer.ts:193-316 | The tracked positions are applied transitions of the kinds they stand for, and no target crash follows the tracked live report. |
| `ConvergenceRuns.FinalizedHistory` | packages/computer/src/machineConvergenceReducer.ts:193-345 | Any run that reaches finalized contains, in order, the stop with both legs armed, the death of the captured service, and then, after the last target crash, target live, managed set converged, outbox written and receipt observed. |
| `ConvergenceRuns.GenerationHolds` | packages/computer/src/machineConvergenceReducer.ts:264-279 | With non-empty generation names the generation is constant from the tracked live report on. |
| `ConvergenceRuns.OutboxEvidence` | packages/computer/src/machineConvergenceReducer.ts:280-308 | Whenever the terminal outbox is set, a managed set was seen to match under the generation that is still current, with no target crash since. |
| `ConvergenceProgress.CanReachFinalized` | packages/computer/src/machineConvergenceReducer.ts:148-345 | From every record that passes the check, some sequence of events leads to finalized. |
| `ConvergenceProgress.StuckForever` | packages/computer/src/machineConvergenceReducer.ts:148-345 | A record that fails the check fails it after every run. |
| `ConvergenceProgress.FinalizableIff` | packages/computer/src/machineConvergenceReducer.ts:148-345 | An operation can still be finalized if and only if its record passes the check. |
| `ConvergenceProgress.LateLiveReportStrands` | packages/computer/src/machineConvergenceReducer.ts:268-279 | From every record in receipt-observed, one more report of the same live target is applied and leaves an operation that nothing finalizes. |
| `ConvergenceProgress.FreshOperationStrands` | packages/computer/src/machineConvergenceReducer.ts:268-279 | Every fresh operation with a service to stop has a run to a receipt after which one more report of the live target strands it. |
| `ConvergenceProgress.EmptyGenerationReplaced` | packages/computer/src/machineConvergenceReducer.ts:264-267 | Every fresh operation with a service to stop can reach an outbox written under the empty generation and then have that generation replaced while the outbox stays. |
| `MachineOperationStore.SystemKeeps` | packages/computer/src/machineOperationRuntime.ts:49-72 | For any number of workers and any interleaving of create, load, reduce and swap, the cell is explained by the log of successful swaps and every loaded record is a past state of the cell. |
| `MachineOperationStore.LogOnlyGrows` | packages/computer/src/machineOperationStore.ts:129-156 | The log of successful swaps only grows and the created record is never replaced. |
| `MachineOperationStore.DurableRecordIsSequentialRun` | packages/computer/src/machineOperationRuntime.ts:49-72 | No update is lost: the durable record is one sequential run of the reducer from the created record, applying every swapped event in swap order. |
| `MachineOperationStore.SameVersionSameRecord` | packages/computer/src/machineOperationStore.ts:141-156 | Cells with equal versions, at any two moments of an interleaving, hold equal records. |
| `MachineOperationStore.EffectsHandedOutOnce` | packages/computer/src/machineOperationRuntime.ts:62-69 | Over all workers the effects returned with successful swaps are exactly the durable intents, and no key is handed out twice. |
| `MachineOperationStore.EpochsGrantedOnceToAll` | packages/computer/src/machineOperationRuntime.ts:59-70 | Over all workers and interleavings no claim epoch is granted twice: of two swapped claims the later has the strictly higher epoch. |
| `MachineOperationStore.StopHandedToOneWorker` | packages/computer/src/machineOperationRuntime.ts:59-70 | Over all workers and interleavings the stop of the old service is handed out by at most one swap, with both legs present and for the captured service. |
| `MachineOperationStore.ExhaustionNeedsInterference` | packages/computer/src/machineOperationRuntime.ts:59-71 | A call gives up only if at least twenty swaps of other workers, and none of its own, went through while it ran. |
| `MachineOperationStore.CallsEnd` | packages/computer/src/machineOperationRuntime.ts:59-71 | A call that goes on has tried fewer than twenty swaps, and gives up after exactly twenty. |
| `MachineOperationStore.SwapGoesThroughIff` | packages/computer/src/machineOperationRuntime.ts:67-68 | A swap goes through exactly when the cell still holds the record the call loaded, and then returns the effects computed from it. |
| `MachineOperationRuntime.OperationStore.CreateIfAbsent` | packages/computer/src/machineOperationStore.ts:129-139 | Writes only into an empty cell and returns what the cell then holds. |
| `MachineOperationRuntime.OperationStore.CompareAndSwap` | packages/computer/src/machineOperationStore.ts:141-156 | Writes exactly when the cell holds the expected version; otherwise it reports missing or stale and leaves the cell alone. |
| `MachineOperationRuntime.AcceptDurable` | packages/computer/src/machineOperationRuntime.ts:31-47 | The first accepted record stays; a replay returns it, another identity is a conflict, and nothing is rejected. |
| `MachineOperationRuntime.ReduceDurable` | packages/computer/src/machineOperationRuntime.ts:49-72 | Whatever other workers do to the cell before each load and each swap, the first attempt that is not overtaken returns: a missing record, the reducer's answer on the record it loaded, or its transition swapped in over exactly that record, so that the cell ends as all acts so far make it, in order, with its own last. It gives up exactly when all twenty attempts are overtaken, leaving nothing of its own. |
| `MachineOperationRuntime.StepsAreActs` | packages/computer/src/machineOperationStore.ts:129-156 | Between any two moments of any interleaving the cell changes by a sequence of acceptances and complete reductions, so the interference the retry loop is proved under is all there is. |
| `TransportEvidence.CheckpointIsLive` | scripts/e2e/transportEvidence.ts:235-247 | A checkpoint that left nothing out holds exactly the live map. |
| `TransportEvidence.CheckpointHolds` | scripts/e2e/transportEvidence.ts:235-247 | A checkpoint lists the live requests with the lowest ids, in order, and counts the rest; it is full exactly up to sixteen requests. |
| `EvidenceEvents.HandleNotesRows` | scripts/e2e/transportEvidence.ts:250-312 | Without errors every event notes exactly its rows, in order: a premature close of a request that has not failed notes a failure and a teardown, any other close a teardown. |
| `EvidenceEvents.HandleServes` | scripts/e2e/transportEvidence.ts:252-312 | After an event exactly these requests are served: the one that arrived, if its row was written, and those served before that the event does not release; a closed connection leaves exactly the requests of other connections. |
| `EvidenceEvents.RunFailsOnce` | scripts/e2e/transportEvidence.ts:288-294 | Over any run, with any errors, no process notes two failures of one request. |
| `EvidenceEvents.OneFailureRow` | scripts/e2e/transportEvidence.ts:288-294 | Among the retained rows of a process there is at most one failure row for a request. |
| `OccupancyHistory.HandleKeeps` | scripts/e2e/transportEvidence.ts:252-313 | Every event a process can observe keeps its history explained: each written row turns the live map before it into the live map after it, and each full checkpoint holds the map at its moment. |
| `EvidenceRuns.RunKeeps` | scripts/e2e/transportEvidence.ts:188-223 | Over every run of any number of processes, with over-long lines, rotations and I/O errors, the two segments are the end of everything written, hold each process's rows in number order, and stay within the limit. |
| `EvidenceRuns.RotatedLineFits` | scripts/e2e/transportEvidence.ts:198-214 | Encoded again after a rotation, a line that fitted is over the limit if and only if it had exactly the limit and its next number has one more digit, and then by one byte. |
| `EvidenceLimits.EmitAdds` | scripts/e2e/transportEvidence.ts:188-217 | Exactly which lines one call appends, with every error and both ways past a rotation; a rotation keeps the newer segment as the older one and starts a new one with them, and an ordinary call adds them to the newer one. |
| `EvidenceLimits.OverlongIff` | scripts/e2e/transportEvidence.ts:198-216 | One call with arbitrary fields appends a line over the limit if and only if, before it, the segment was full for a line of exactly the limit whose next number has one more digit and no error stops the write; the line is then one byte over and the last of the new segment. |
| `EvidenceLimits.OverlongCall` | scripts/e2e/transportEvidence.ts:198-216 | On every full segment there is such a call of the writer, with its ninth number. |
| `EvidenceRows.RowsAreShort` | scripts/e2e/transportEvidence.ts:192-196 | With safe integers and the allow-listed error codes, a row of the observer has at most 400 bytes and a checkpoint of sixteen requests at most 1900. |
| `EvidenceLimits.LinesWithinLimit` | scripts/e2e/transportEvidence.ts:198-216 | On every run whose rows and checkpoints fit under the numbers their handlers can use, with any I/O errors, no line ever written is over the limit. |
| `EvidenceLimits.NothingDropped` | scripts/e2e/transportEvidence.ts:199-212 | On such a run without I/O errors something was written under every number. |
| `EvidenceLimits.RetainedContiguous` | scripts/e2e/transportEvidence.ts:203-217 | On such a run the retained numbers of a process have no gap and go up to the last one it used. |
| `EvidenceLimits.RealRunsFit` | scripts/e2e/transportEvidence.ts:251-312 | Runs whose rows the observer can encode, with numbers that stay safe integers, meet that condition. |
| `EvidenceRuns.RetainedIsSuffix` | scripts/e2e/transportEvidence.ts:203-216 | The retained rows of a process are the end of the rows it has written. |
| `EvidenceRuns.RetainedNumbers` | scripts/e2e/transportEvidence.ts:188-217 | Retained rows have strictly increasing numbers in file order, and inside their range a number is missing exactly when nothing was written under it. |
| `EvidenceRuns.HealthyDrops` | scripts/e2e/transportEvidence.ts:199-212 | Without I/O errors nothing was written under a number exactly when its line or checkpoint was over the length limit. |
| `EvidenceRuns.HistoryExtends` | scripts/e2e/transportEvidence.ts:186-217 | What a process has noted for its numbers is never revised by a later event. |
| `EvidenceRuns.NotedMapWasLive` | scripts/e2e/transportEvidence.ts:270-313 | The map noted for a number is the live map the process had when the handler that used the number was done. |
| `OccupancyReader.ReplayIsLive` | scripts/e2e/transportEvidence.ts:537-557 | Replaying contiguous rows from the map before them gives the live map after the last of them. |
| `OccupancyReader.ViewIsLive` | scripts/e2e/transportEvidence.ts:493-557 | From process start or from the last usable checkpoint, a view deemed complete is the live map just after the last row at or before the probe. |
| `OccupancyMeaning.ReplayMeans` | scripts/e2e/transportEvidence.ts:537-557 | After a replay a request is listed if and only if it began in the rows, or was listed before, and no row since ended it. |
| `OccupancyMeaning.ViewMeans` | scripts/e2e/transportEvidence.ts:493-560 | From the rows alone: the view is complete exactly when they reach back to the process start or to a full checkpoint without a gap up to the row after the probe, it rests on a checkpoint exactly in the second case, and it lists exactly the requests the rows show. |
| `OccupancyReader.SortedRowsUnique` | scripts/e2e/transportEvidence.ts:482-482 | Sorting rows with distinct numbers has one outcome. |
| `OccupancyReader.OccupancyIsExact` | scripts/e2e/transportEvidence.ts:484-560 | For every run, process and probe: if the reader deems the process complete, the active set it rebuilds from the retained rows is the live map the writer had just after the last row at or before the probe. |
| `OccupancyReader.SegmentsStayWithinLimit` | scripts/e2e/transportEvidence.ts:203-216 | Both retained segments always stay within the segment limit. |
| `OccupancyReader.ReadInstance` | scripts/e2e/transportEvidence.ts:493-558 | The loop body for one process gives that process's view and leaves the entries of all other processes alone. |
| `OccupancyReader.Reconstruct` | scripts/e2e/transportEvidence.ts:484-560 | Over all processes in any order: complete exactly when there are processes and each is complete, from a checkpoint exactly when one was used, and for each process exactly its own view. |
| `OccupancyEvidence.GroupRows` | scripts/e2e/transportEvidence.ts:476-481 | The rows of each process in file order, for exactly the processes that have any. |
| `OccupancyEvidence.RetainedSorted` | scripts/e2e/transportEvidence.ts:482-482 | On the retained rows of any run the sort finds every process in order already. |
| `OccupancyEvidence.CompleteIff` | scripts/e2e/transportEvidence.ts:494-536 | On every run without I/O errors whose rows fit, a process that still has rows is complete at a probe if and only if some row is at or before the probe and its rows begin with the process start as number 1, or hold a checkpoint that left nothing out by then. |
| `OccupancyEvidence.ReadOccupancy` | scripts/e2e/transportEvidence.ts:476-565 | From the two segments any run has left behind: the answer covers exactly the processes that still have a row in them; it is complete exactly when there is one and the rows of each reach back to its start or to a full checkpoint; it rests on a checkpoint exactly when some covered process needs one; complete or not, it lists for each covered process exactly the requests its rows show, and if complete exactly its live map just after its last row at or before the probe. |
| `EvidenceWriter.ApiObserver.EmitRow` | scripts/e2e/transportEvidence.ts:188-223 | One call of the writer object, error paths and rotation included, has the modelled effect on segments, number and disabled flag, and touches neither the live map nor the observer's flags. |
| `EvidenceWriter.ApiObserver.OnRequest` | scripts/e2e/transportEvidence.ts:279-302 | A request enters the live map only if its begin row was written. |
| `EvidenceWriter.ApiObserver.OnFailure` | scripts/e2e/transportEvidence.ts:288-294 | The first failure of a request writes one row and removes it; later ones do nothing. |
| `EvidenceWriter.ApiObserver.OnFinish` | scripts/e2e/transportEvidence.ts:305-308 | A finish writes its row and removes the request. |
| `EvidenceWriter.ApiObserver.OnClose` | scripts/e2e/transportEvidence.ts:309-312 | A premature close fails the request first; every close writes a teardown row and no removal of its own. |
| `EvidenceWriter.ApiObserver.OnConnectionClose` | scripts/e2e/transportEvidence.ts:270-276 | A closed connection takes exactly its own requests out of the live map. |
| `EvidenceWriter.ApiObserver.OnExit` | scripts/e2e/transportEvidence.ts:252-256 | An exit writes its row and empties the live map. |
| `StartupClosure.LeastIsUnique` | packages/web/vite.config.ts:200-246 | There is at most one least answer to the import and barrel rules. |
| `StartupClosure.OrderDoesNotMatter` | packages/web/vite.config.ts:223-242 | Listing the imports of modules in another order does not change the least answer. |
| `StartupClosure.WalkOnce` | packages/web/vite.config.ts:205-243 | One pass ends on every finite graph and holds nothing beyond what every closed answer holds, with each walked module's rules met for the names known when the pass began. |
| `StartupClosure.QuietPassIsLeast` | packages/web/vite.config.ts:206-244 | A pass that collects no new name and no new whole barrel has found the least closed answer. |
| `StartupClosure.ComputeStartupClosure` | packages/web/vite.config.ts:200-246 | On every finite graph the repeated passes end and return the closure of the least answer to the import and barrel rules. |
| `TraceForest.CycleMates` | scripts/dev/raftdev-trace.ts:1034-1050 | Whatever is above a span on a cycle of parents is on that cycle too. |
| `TraceForest.StartsRendered` | scripts/dev/raftdev-trace.ts:1054-1080 | After each start of the walk every visited span has one line and every cycle met has one marker. |
| `TraceForest.RenderingIsExact` | scripts/dev/raftdev-trace.ts:1054-1080 | For every parent relation and every order of children each span is printed exactly once, and there is one cycle marker per cycle, for its first span in display order, and none for any other span. |
| `TraceForest.RenderingNests` | scripts/dev/raftdev-trace.ts:1056-1080 | Every indented line stands under its parent's line, and every line at the margin is a span line with the note that says why. |
| `TraceMargin.LinkMeans` | scripts/dev/raftdev-trace.ts:1034-1050 | A span is a root without a parent id, a child of p exactly when p is the only span with that id, and an orphan whose parent is not recorded or ambiguous otherwise. |
| `TraceMargin.RenderingOrdered` | scripts/dev/raftdev-trace.ts:1076-1080 | Lines at the margin stand in the order of the starts they come from. |
| `TraceSiblings.RenderingFollowsStart` | scripts/dev/raftdev-trace.ts:1051-1075 | Lines under the same parent follow the start of their spans. |
| `TraceRenderer.Renderer.Visit` | scripts/dev/raftdev-trace.ts:1056-1075 | The recursive walk over the shared sets ends and appends exactly the rendering of its span. |
| `TraceRenderer.BySpanId` | scripts/dev/raftdev-trace.ts:1025-1030 | The table lists, under each id, the spans with that id in display order. |
| `TraceRenderer.Classify` | scripts/dev/raftdev-trace.ts:1031-1050 | Every span is a root, an orphan with its reason, or a child of the one span with its parent's id; roots and orphans are listed in display order, and the child lists hold each child once. |
| `TraceRenderer.SortChildren` | scripts/dev/raftdev-trace.ts:1051-1051 | Sorting puts every list of children in the order of start and keeps each child exactly once under its parent. |
| `TraceRenderer.RenderTrace` | scripts/dev/raftdev-trace.ts:1025-1080 | For any spans, with self-parents, cycles and ambiguous parents: one line per span and one marker per cycle, nested as the parents say; at the margin roots, then orphans, then cycles, each in display order; siblings in the order of their start. |
| `TraceLines.ChunksDoNotMatter` | scripts/dev/raftdev-trace.ts:467-512 | Without borderline lines, reading a text in any chunks is reading it at once. |
| `TraceLines.ChunksMatter` | scripts/dev/raftdev-trace.ts:505-511 | A borderline line makes the reading depend on whether a chunk ends right before its newline. |
| `TraceLines.ChunkingInvisibleIff` | scripts/dev/raftdev-trace.ts:467-512 | Chunking is invisible if and only if no complete line is borderline. |
| `TraceLines.BorderlineExists` | scripts/dev/raftdev-trace.ts:485-511 | A line of exactly the cap followed by a carriage return is borderline. |
| `TraceLines.CutsReadDifferently` | scripts/dev/raftdev-trace.ts:485-511 | A file of one such line is read differently in one chunk and when a chunk ends right before its newline. |
| `TraceLines.NoBorderlineIs` | scripts/dev/raftdev-trace.ts:483-504 | The condition is one on the lines of the plain newline split. |
| `TraceLines.PlainSplit` | scripts/dev/raftdev-trace.ts:483-504 | Read at once, a text gives the documents and errors of its plain newline split, numbered in order, and leaves its last part pending. |
| `TraceLines.SplitRejoins` | scripts/dev/raftdev-trace.ts:482-504 | The lines and the rest hold no newline and make up the text again. |
| `TraceLines.NumberedMeans` | scripts/dev/raftdev-trace.ts:484-502 | A document has the number of its line in the split and the text of that line without a trailing carriage return; lines without visible characters give nothing, and those over the cap an error. |
| `TraceLines.NumberedInOrder` | scripts/dev/raftdev-trace.ts:484-502 | Documents and errors come in the order of their lines. |
| `TraceLines.TakeLines` | scripts/dev/raftdev-trace.ts:482-504 | The loop that takes complete lines out of the pending text, searching only where a newline can be, has the effect of feeding the text character by character. |
| `TraceLines.ReadChunk` | scripts/dev/raftdev-trace.ts:467-512 | One chunk through the loop has the effect of feeding its characters one by one and then holding the unfinished line against the cap. |
| `TraceLines.ReadTraceText` | scripts/dev/raftdev-trace.ts:466-529 | However the stream is cut, a file without borderline lines is read by its newlines: a document has the number of its line and its text without a trailing carriage return, errors are those of lines over the cap, the number of complete lines is that of the newlines, and the tail is what follows the last one. |
| `TraceSpans.FirstPerKeyIsFirst` | scripts/dev/raftdev-trace.ts:448-464 | The kept spans are a subsequence of the input with one span per key, each the first of its key, and no key is missing. |
| `TraceSpans.KeysTellApart` | scripts/dev/raftdev-trace.ts:449-451 | With trace ids that hold no colon, equal keys mean the same trace and the same span. |
| `TraceSpans.Dedupe` | scripts/dev/raftdev-trace.ts:436-464 | The kept spans are the first of each key; the exact duplicates are the later spans with the fingerprint of the first of their key; every other later span is listed, in order, as a conflict with that first one; the three add up to the input. |
| `SqlLexer.PiecesRejoin` | scripts/dev/raftdev-risingwave-bootstrap.ts:386-448 | The untrimmed pieces joined by semicolons are the input. |
| `SqlLexer.SplitUndoesJoin` | scripts/dev/raftdev-risingwave-bootstrap.ts:386-448 | Joining self-contained statements with semicolons and splitting again returns them trimmed and in order, empty ones left out. |
| `SqlSplitter.SplitSqlStatements` | scripts/dev/raftdev-risingwave-bootstrap.ts:386-448 | The splitter with its index skips cuts exactly at semicolons where the character-by-character lexer (nested comments, doubled quotes, dollar tags) is in code, and fails exactly when the lexer ends inside a quote, a block comment or a dollar body. |
| `SqlTokens.TokensAreOneStatement` | scripts/dev/raftdev-risingwave-bootstrap.ts:395-433 | Any sequence of words, quoted texts, line comments, nested block comments and dollar-quoted bodies, printed as SQL writes them, is one self-contained statement, whatever semicolons and quotes the quoted parts hold. |
| `SqlTokens.OpenEndsFail` | scripts/dev/raftdev-risingwave-bootstrap.ts:441-443 | After any such tokens an open quote, block comment or dollar body makes the artifact fail, and an open line comment does not. |
| `SqlBody.KeptExactly` | scripts/dev/raftdev-risingwave-bootstrap.ts:434-446 | The pieces that are not all white space become the statements, trimmed and in order, and no others do. |
| `SqlBody.PiecesAreSelfContained` | scripts/dev/raftdev-risingwave-bootstrap.ts:395-439 | Every piece the splitter cuts off begins in code, holds no semicolon in code and ends in code, so splitting and joining undo each other in both directions. |
| `SqlBody.StatementsAreClosed` | scripts/dev/raftdev-risingwave-bootstrap.ts:434-447 | Every statement returned is trimmed, not empty, without a semicolon in code, and ends outside quotes, block comments and dollar bodies when read by itself. |
| `SqlBody.ResplitIsIdentity` | scripts/dev/raftdev-risingwave-bootstrap.ts:386-448 | Splitting a returned statement again gives just that statement. |
| `SqlBody.LeadingSqlBodyStart` | scripts/dev/raftdev-risingwave-bootstrap.ts:450-480 | The scan with nested comments stops after exactly the longest stretch of white space and comments, and fails exactly when the statement is all comment and ends inside a block comment. |
| `SqlBody.BodyLexesAlone` | scripts/dev/raftdev-risingwave-bootstrap.ts:450-484 | No semicolon in code is skipped, and the body alone lexes, and is cut, as it is in place. |
| `SqlBody.StatementsHaveBodies` | scripts/dev/raftdev-risingwave-bootstrap.ts:450-484 | No statement from the splitter meets the one case in which the scan for its body fails. |
| `SqlBody.StatementBodies` | scripts/dev/raftdev-risingwave-bootstrap.ts:482-484 | Splitting an artifact and scanning every statement for its body fails only when the splitting does; each body is what is left after exactly the leading white space and comments. |
| `BootstrapPlan.Builder.Add` | scripts/dev/raftdev-risingwave-bootstrap.ts:578-594 | A statement is accepted exactly when everything it reads, apart from an index's own base, is already created and it creates nothing twice. |
| `BootstrapPlan.ScanArtifact` | scripts/dev/raftdev-risingwave-bootstrap.ts:602-626 | An artifact passes exactly when it holds no unsupported statement and makes each wanted relation once; the choice is the wanted relations and the indexes of built ones. |
| `BootstrapPlan.OrderMeans` | scripts/dev/raftdev-risingwave-bootstrap.ts:578-594 | The check by sets says that every relation read is created at an earlier position and none at two. |
| `BootstrapPlan.PlanCreates` | scripts/dev/raftdev-risingwave-bootstrap.ts:369-372 | The statements selected up to an artifact create exactly the relations the manifest lists up to it. |
| `BootstrapPlan.AcceptedIsSound` | scripts/dev/raftdev-risingwave-bootstrap.ts:569-653 | If the bootstrap is accepted, dependencies come first, no relation is created twice, and the created set is the required set and contains every server read. |
| `BootstrapMeaning.SelectedAt` | scripts/dev/raftdev-risingwave-bootstrap.ts:606-622 | From an artifact exactly these pieces are taken, in file order and in rewritten form: the relations it lists, and the indexes whose base is listed here or before. |
| `BootstrapMeaning.OrderIs` | scripts/dev/raftdev-risingwave-bootstrap.ts:578-594 | The check by sets passes if and only if every relation read is created at an earlier position and none at two. |
| `BootstrapMeaning.AcceptedExactly` | scripts/dev/raftdev-risingwave-bootstrap.ts:569-653 | Exactly when the manifest and the artifacts are accepted, told by positions. |
| `BootstrapMeaning.BootstrapIsUnique` | scripts/dev/raftdev-risingwave-bootstrap.ts:569-653 | There is only one list of the tables and the built pieces. |
| `BootstrapMeaning.BuildStatements` | scripts/dev/raftdev-risingwave-bootstrap.ts:569-653 | It returns exactly when the list of the tables and the built pieces is acceptable, and then returns that list. |
| `BootstrapPlan.BuildBootstrapStatements` | scripts/dev/raftdev-risingwave-bootstrap.ts:569-653 | For arbitrary artifacts it returns exactly when all guards hold, and then returns the plan read off the manifest. |
| `LifecycleQueue.StepKeepsValid` | packages/computer/src/lifecycleOperations.ts:127-291 | Every operation on the file keeps ids distinct and phase lists free of duplicates. |
| `LifecycleQueue.StepKeepsNonEmpty` | packages/computer/src/lifecycleOperations.ts:127-291 | Phase lists stay non-empty when every enqueue names a phase. |
| `LifecycleQueue.RunKeepsNonEmpty` | packages/computer/src/lifecycleOperations.ts:37-61 | Over any run of such enqueues and all other operations, no operation in the file is ever skipped by a read. |
| `LifecycleQueue.AnswerMeans` | packages/computer/src/lifecycleOperations.ts:132-175 | An enqueue conflicts exactly when an operation of another identity has the id, and the exact form refuses exactly when the id is new and the action is held. |
| `LifecycleQueue.StepHolds` | packages/computer/src/lifecycleOperations.ts:127-291 | One operation on the file is one step on the set of (operation, phase) pairs. |
| `LifecycleQueue.PendingIsHistory` | packages/computer/src/lifecycleOperations.ts:127-291 | After any run a pair is pending if and only if an accepted enqueue named it and no receipt, discard or retirement of it followed. |
| `LifecycleQueue.IdentityHolds` | packages/computer/src/lifecycleOperations.ts:132-144 | While an id is present its action, target, trigger, parent and creation time never change. |
| `LifecycleQueue.ExactIsExclusive` | packages/computer/src/lifecycleOperations.ts:158-184 | An action inserted only through the exact form is held by at most one operation at any time. |
| `LifecycleQueue.PendingExact` | packages/computer/src/lifecycleOperations.ts:190-209 | The pending read lists each pair that was asked for exactly once and nothing else. |
| `LifecycleQueue.RetireCounts` | packages/computer/src/lifecycleOperations.ts:273-291 | The count a retirement returns is the number of pairs it took out. |
| `LifecycleQueue.OperationsFile.EnqueueLifecycleOperation` | packages/computer/src/lifecycleOperations.ts:127-151 | An accepted enqueue adds exactly the named pairs; it conflicts exactly when an operation of another identity has the id, and then changes nothing. |
| `LifecycleQueue.OperationsFile.EnqueueExactIfNoActionConflict` | packages/computer/src/lifecycleOperations.ts:158-184 | The same, and a new id is refused exactly when its action is held; a refusal changes nothing. |
| `LifecycleQueue.OperationsFile.AcknowledgeLifecycleReceipt` | packages/computer/src/lifecycleOperations.ts:227-241 | Takes exactly the pair of this operation and phase out of the pending ones and keeps the file valid. |
| `LifecycleQueue.OperationsFile.DiscardLifecycleOperation` | packages/computer/src/lifecycleOperations.ts:244-256 | Takes out every pair of the operation and no other, and keeps the file valid. |
| `LifecycleQueue.OperationsFile.RetireCompletedUpgradeShutdowns` | packages/computer/src/lifecycleOperations.ts:273-291 | Takes the shutdown phase from completed upgrades and from nothing else, returns how many pairs went, and leaves the file alone when none did. |
| `LifecycleQueue.OperationsFile.ReadPendingAcknowledgements` | packages/computer/src/lifecycleOperations.ts:190-209 | One entry for every pending pair that was asked for, and no other, each with its operation's action, and with the loaded version exactly on ready phases when one was given. |
| `WindowsArguments.QuoteWindowsArgument` | packages/computer/src/osSupervisor.ts:135-156 | The one-pass loop that holds back backslashes computes the quoted form. |
| `WindowsArguments.ParsingUndoesQuoting` | packages/computer/src/osSupervisor.ts:135-156 | For every list of strings, parsing the space-joined quoted arguments by the CommandLineToArgvW rules gives back the list, whichever way doubled quotes are read. |
| `CodeSpans.NoWiderRun` | packages/computer/src/accountUnavailable.ts:163-165 | No run of backticks is longer than the widest run the fence is made from. |
| `CodeSpans.OnlyFences` | packages/computer/src/accountUnavailable.ts:163-168 | In a printed message the two fences are the only runs of their width, and none is wider. |
| `CodeSpans.CommandsAtWidth` | packages/computer/src/output.ts:61-72 | The match loop for one width collects the trimmed commands between paired fences of that width, each once. |
| `CodeSpans.ContentsMean` | packages/computer/src/output.ts:61-67 | The texts read are exactly those between the runs of this width, paired from the left. |
| `CodeSpans.CommandsMean` | packages/computer/src/output.ts:68-72 | Every text that names raft-computer as a word becomes a command, trimmed, once, in the order of first occurrence. |
| `CodeSpans.InferNextCommands` | packages/computer/src/output.ts:56-110 | Commands between fences, widest first; else the first bare command with the regular expression's backtracking; else the one for the code. |
| `CodeSpans.AlwaysACommand` | packages/computer/src/output.ts:56-110 | Whatever the code and the message, at least one command is returned, none twice, and each names raft-computer as a word. |
| `CodeSpans.BareRecovered` | packages/computer/src/output.ts:76-78 | Without fences, a command in running text is recovered up to the end of its sentence, its line or the message. |
| `CodeSpans.FallbackGiven` | packages/computer/src/output.ts:80-80 | Without fences and without the name, the command for the code is given. |
| `CodeSpans.CommandRecovered` | packages/computer/src/output.ts:56-81 | Every trimmed command that names raft-computer, with any backticks inside, printed as a code span in text without backticks, is returned exactly and alone, whatever the code. |
| `CrashHealth.PruningVisibleIff` | packages/computer/src/health.ts:140-161 | Pruning loses no crash from a window if and only if no crash in it had already left the window of a later crash. |
| `CrashHealth.KeptCounts` | packages/computer/src/health.ts:140-161 | The pruned record holds of a window exactly as many crashes as were pruned by no later crash. |
| `CrashHealth.VerdictExactIff` | packages/computer/src/health.ts:188-201 | For every run and every query time the pruned file gives the verdict of the full history if and only if the configuration marker decides, or fewer than three crashes since the reset lie in the window, or at least three of those in it were pruned by no later crash. |
| `CrashHealth.PruningInvisible` | packages/computer/src/health.ts:188-201 | For every run and every query no earlier than any crash on record, the pruned file gives the verdict of the full history since the last reset. |
| `CrashHealth.ClockBehindMisses` | packages/computer/src/health.ts:188-201 | A query whose clock is behind a recorded crash can miss the threshold. |
| `CrashHealth.MarkerIsHistory` | packages/computer/src/health.ts:248-325 | The terminal-unlinked marker is present exactly since its mark, through all crashes, configuration marks and resets, until a new mark or a read for another machine. |
| `CrashHealth.HealthFile.AppendCrash` | packages/computer/src/health.ts:140-161 | The crashes now on record are, in order, exactly the earlier ones inside the new crash's window and then the new one; both markers stay. |
| `CrashHealth.HealthFile.SetFatalConfig` | packages/computer/src/health.ts:211-227 | From then on the server is degraded at every time; crashes and the other marker are untouched. |
| `CrashHealth.HealthFile.SetUnlinked` | packages/computer/src/health.ts:248-265 | A read clears the marker exactly for another named machine; no verdict changes. |
| `CrashHealth.HealthFile.ReadTerminalUnlinked` | packages/computer/src/health.ts:267-300 | Clears a marker left for another machine, keeping crashes and the configuration marker, and returns what is then on record. |
| `CrashHealth.HealthFile.ResetHealth` | packages/computer/src/health.ts:310-325 | Forgets crashes and the configuration marker and keeps the terminal-unlinked marker. |
| `CrashHealth.HealthFile.IsDegraded` | packages/computer/src/health.ts:188-201 | Degraded exactly if the configuration marker is set or at least three crashes on record lie in the window that ends now. |
| `Lexicographic.Strict` | packages/computer/src/computerVersionOrder.ts:41-54 | Comparing lists by first difference over a strict total order is irreflexive, total and asymmetric. |
| `Lexicographic.Transitive` | packages/computer/src/computerVersionOrder.ts:41-54 | It is also transitive, across differing items and prefixes. |
| `VersionOrder.ParseIsGrammar` | packages/computer/src/computerVersionOrder.ts:11-28 | The parser accepts exactly the printed well-formed versions and reads back what was printed. |
| `VersionOrder.NumeralIsDecimal` | packages/computer/src/computerVersionOrder.ts:13-27 | A number without leading zeros is the decimal form of its value, so equal values mean equal text. |
| `VersionOrder.PrecedenceStrict` | packages/computer/src/computerVersionOrder.ts:31-54 | Precedence by section 11 of SemVer 2.0.0 is irreflexive, total and asymmetric on accepted versions. |
| `VersionOrder.PrecedenceTransitive` | packages/computer/src/computerVersionOrder.ts:31-54 | Precedence is transitive across numeric, alphanumeric, prefix and release cases. |
| `VersionOrder.CompareComputerVersions` | packages/computer/src/computerVersionOrder.ts:11-55 | The comparison answers exactly for two accepted strings, with the sign of their precedence, and with zero exactly for identical strings. |
| `VersionOrder.StandardExamples` | packages/computer/src/computerVersionOrder.ts:31-54 | The examples of section 11 of SemVer 2.0.0 stand in their order. |

## Left out

- Storage: the durable cell is ideal, with atomic create and compare-and-swap and a load that is a separate step; the file system, the lock, JSON encoding and record validation are not modelled.
- Numbers are unbounded integers; ordinals and versions beyond the exact range of doubles are not modelled. Strings are sequences of Unicode scalar values, where the source has UTF-16 code units.
- `ConvergenceRuns.OutboxEvidence`: assumes non-empty generation strings; `LiveGenerationChanges` says exactly what happens otherwise.
- Began-timestamps of requests: writer and reader take them separately, so only request keys and connection ids are compared.
- Partially written log lines: an append writes its whole line or nothing. The two segments are read as one snapshot; a rotation between reading one and the other is not modelled.
- Node's order of events: a close with `writableFinished` is assumed to come after its finish, and request ids of one process to be fresh.
- The general evidence slot, login and readiness rows: the same writer without a checkpoint.
- What the regular expressions find in a module (barrel, names imported and declared, namespace import) and in an SQL statement (created name, index target, relations read, sources) is given, not computed; the blanking of comments by `codeOnly` is part of those scans.
- `BootstrapPlan.BuildBootstrapStatements`: returns nothing in place of an error message, leaves out the two leading `SET` statements, and assumes that rewriting the source name changes no other name.
- `TraceRenderer.RenderTrace`: the header lines, the text of span lines and the event lines are left out; spans with equal starts keep their order, and every other order is covered by `RenderingIsExact` and `RenderingNests`.
- JSON parsing, flattening of OTLP documents and the parse outcome of an unterminated last line.
- The scheduled-task XML around the argument line, and the first token of a command line, which Windows parses by other rules.
- `EvidenceRows.RowsAreShort`: the characters of a row are counted, not built.
- Health: server ids are taken to be valid and recorded times to be finite.
- `LifecycleQueue.OperationsFile.EnqueueLifecycleOperation`: the clock's reading comes with the operation; unreadable files read as empty and are not modelled.
- Process supervision, HTTP clients, proxies, command-line wiring, polling loops, redaction and path helpers are not modelled.
