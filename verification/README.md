# Electris: verified models of the agent runtime

Electris is an AI-agent runtime. This project models the parts of its `electro-agent` crate, and of its worker
node, whose guarantees are hard to see from the code: the parallel tool executor, the request protocol of the
worker, the spawn limiter, history pruning and context assembly, the λ-memory, the phase graph of blueprints, and
three guards that are state machines over time. `dafny verify dfyconfig.toml` checks everything.

| part | files |
|---|---|
| tool executor | `ToolCalls`, `Dependencies` (union-find on an array), `Programs` (calls as sequences of accesses), `Executor` (step machine), `Scheduling`, `Serializability`, `GroupingLimits` |
| concurrent protocols | `WorkerNode` (step machine and invariant) and `WorkerGuarantees`, `Delegation` |
| history and context | `Messages`, `Turns`, `HistoryPruning`, `Stripping`, `Context`, `LambdaMemory` and `LambdaLimits`, `MemoryBlocks` |
| blueprints | `Decimals`, `Lines`, `TaskGraph` (Kahn's algorithm), `Phases`, `Blueprint`, `BlueprintText` |
| guards | `CircuitBreaker`, `Proactive` and `ProactiveRuns`, `PromptPatches` and `PatchRuns` |
| shared | `Wrappers`, `Strings`, `Sums` |

Concurrent code is a step machine: one step per lock acquisition, atomic operation, await or access to the store,
any number of participants, and every interleaving is a sequence of states and events. Code that changes things
step by step is a method over arrays, sequences or fields of a class, proved against a function of the old state;
statements about whole runs are lemmas about that function. The clock, the results of searches and the output of
tools and of the model are arguments.

## Where the code does less than its documentation says

The code is modelled as it is. For each of these there is the exact condition, and an input or a run that shows it.

- Serializability needs conflicting calls in one group (`GroupingLimits.SerializableIffConflictsGrouped`). A `shell`
  call without path arguments shares no group with a file call, whatever it touches
  (`GroupingLimits.HiddenShellAccessBreaks`).
- The worker does not run a request id exactly once (`WorkerGuarantees.GapIsReachable`; only in that way:
  `WorkerGuarantees.SecondExecutionOnlyThroughGap`), and a waiter can miss the notification
  (`WorkerGuarantees.LostExactlyIfLate`; two runs: `WorkerGuarantees.LostThroughCancellation`,
  `WorkerGuarantees.LostThroughEarlyNotification`). A cancelled owner blocks its request id for ever
  (`WorkerGuarantees.CancelledOwnerBlocks`).
- The λ invariant `bone + active + reserve + guard + λ <= skull` is not kept by construction: rounding can make the
  section exceed its budget. With what a request passes as the budget, the smaller of the λ budget and what is left of
  the request, it holds for all stored memories exactly if it does in the worst case, which is known for every budget
  (`Context.RequestFitsSkullIff`, `LambdaLimits.SkullInvariantIff`, `LambdaLimits.WorstCase`). So it holds for requests
  of 30,000 tokens in a window of 200,000 (`Context.DefaultFits`), and not if a request may fill the window
  (`Context.LargeBudgetBreaks`, `LambdaLimits.WholeBudgetIff`).
- Explicit saves are not always packed. With room for the largest texts of all saves and one minimal memory more, a
  save is packed exactly if its score is above the gone threshold (`LambdaLimits.SavePackedIffNotGone`). With less
  room, one that is not gone is left out exactly if none of its texts fits, or less than the minimum is left, when its
  turn comes (`LambdaLimits.SaveLeftOutIff`, `LambdaLimits.SecondSaveLeftOut`).
- Pruning can orphan a tool result (`HistoryPruning.PruningOrphansAResult`). Pruning by score orphans none, for any size
  limit, exactly if each result has a use of its id in its own turn or in one that goes later in the order of scores
  (`HistoryPruning.PruneHistorySafeIff`). No choice of dropped turns whatever orphans one exactly if each result has a
  use in its own turn (`HistoryPruning.PruningSafeIff`).
- One pass of orphan removal can leave an orphan (`HistoryPruning.OnePassSufficesIff`,
  `HistoryPruning.MixedMessagesExist`), and messages of users are not always left unchanged (`Stripping.UnchangedIff`,
  `Stripping.UserMessagesChange`).
- A request can send more than is charged: a summary, a digest and the frames of sections are not counted
  (`Context.SentTokens` bounds it).
- A half-open circuit lets every request through until an outcome is recorded (`CircuitBreaker.HalfOpenAdmitsEveryone`),
  so only one exactly if the first is not followed by another request (`CircuitBreaker.OneTestRequestIff`).
- The hourly cap of proactive actions can be exceeded within one evaluation (`ProactiveRuns.EvaluationExceedsCapIff`,
  `ProactiveRuns.CapCanBeExceeded`), and over a run only by such an evaluation or by lowering the cap
  (`ProactiveRuns.CapExceededIff`). A cooldown that the clock arithmetic cannot represent counts as none
  (`ProactiveRuns.CooldownRespectedIff`).
- The threshold of a metric rule is not looked at: over all reports no threshold is respected
  (`ProactiveRuns.SomeReportMisfires`). Over the reports with the rule's own condition it is exactly if it is 0 for
  "above" or the largest float for "below" (`ProactiveRuns.FiresWhenCrossedIff`).

## Model

| member | source | states |
|---|---|---|
| ToolCalls.DependenceIsSymmetric | crates/electro-agent/src/executor.rs:246-291 | The conflict relation does not depend on the order of the two calls |
| ToolCalls.PathsMeaning | crates/electro-agent/src/executor.rs:294-319 | A path counts exactly if it is a string of the arguments under one of the nine keys, whatever the tool |
| ToolCalls.DependentIff | crates/electro-agent/src/executor.rs:245-336 | The whole heuristic in names and arguments: dependent exactly if both are `shell`, or they share a path and not both are `file_read`, or neither names a path and they are the same tool, other than the four read-only ones |
| ToolCalls.DependenceMeaning | crates/electro-agent/src/executor.rs:245-331 | In write sets: two calls are dependent exactly if both are `shell`, or both have no paths and are the same tool that is not read-only, or one writes a path of the other |
| Dependencies.Find | crates/electro-agent/src/executor.rs:209-215 | On an acyclic parent array `find` ends, returns the root, and path compression leaves every element's root as it was |
| Dependencies.Union | crates/electro-agent/src/executor.rs:217-224 | Exactly the two trees become one, and the forest stays acyclic |
| Dependencies.UniteDependentPairs | crates/electro-agent/src/executor.rs:226-232 | After both loops two calls have one root exactly if a chain of pairwise dependent calls links them |
| Dependencies.EmitGroups | crates/electro-agent/src/executor.rs:234-242 | The groups partition the indices, each strictly ascending, one group per root |
| Dependencies.DetectDependencies | crates/electro-agent/src/executor.rs:196-243 | The groups partition `0..n`, are ascending, and are exactly the connected components of the conflict relation |
| Programs.SequentialIsDeterministic | crates/electro-agent/src/executor.rs:61-177 | Running the calls in list order has at most one outcome: outputs and final store |
| Programs.AccessCommutes | crates/electro-agent/src/executor.rs:133 | One more access of a call, made after everything else so far, has the effect it would have had in list order, if later calls that have begun do not conflict with it |
| Executor.FillSlots | crates/electro-agent/src/executor.rs:147-154 | The collecting loop puts each result of a joined group into the slot of its call and changes no other slot |
| Executor.InvariantHolds | crates/electro-agent/src/executor.rs:86-161 | At every step of every schedule permits are conserved, only started calls have accessed the store, recorded outputs belong to finished calls, and slots hold the results of joined groups |
| Scheduling.ConcurrencyBounded | crates/electro-agent/src/executor.rs:71-75 | Never more calls execute than permits were given out, at most the configured limit, 5 for a limit of 0 |
| Scheduling.GroupOrderKept | crates/electro-agent/src/executor.rs:121-144 | Of two calls in a group the later starts only after the earlier has finished |
| Scheduling.DependentCallsInOrder | crates/electro-agent/src/executor.rs:55-57 | A dependent pair i < j never overlaps or swaps in any schedule |
| Scheduling.AlwaysProgress | crates/electro-agent/src/executor.rs:121-161 | Until every spawned group is joined some step other than a panic is enabled: no deadlock |
| Scheduling.FreePermitIsTaken | crates/electro-agent/src/executor.rs:121-133 | While fewer calls run than the limit, the next call of any idle group can start: nothing else holds it back |
| Scheduling.RunningMayFail | crates/electro-agent/src/executor.rs:133-161 | A running call can time out or panic at any point, and that frees its permit and changes nothing else |
| Scheduling.EveryStepConsumesWork | crates/electro-agent/src/executor.rs:121-161 | Every step uses up part of a finite amount of work |
| Scheduling.SchedulesAreBounded | crates/electro-agent/src/executor.rs:121-161 | The number of steps of any schedule is bounded by calls, groups and accesses |
| Scheduling.SchedulesComplete | crates/electro-agent/src/executor.rs:147-161 | Every schedule, whatever timed out or panicked so far, can be continued to its end without a panic |
| Scheduling.ResultsAreRecorded | crates/electro-agent/src/executor.rs:133-143 | Each recorded result is under the id of its call and is what the call returned at the step that ended it, or the timeout that ended it |
| Scheduling.OneResultPerCall | crates/electro-agent/src/executor.rs:163-176 | At the end there is one result per call, in call order, under the call's id, also when spawned groups panicked; exactly the calls of those report the panic |
| Serializability.EveryStateReplays | crates/electro-agent/src/executor.rs:61-177 | At every point of every schedule, with calls half-way through, the store and what each call has seen are those of list-order execution cut off at the same accesses |
| Serializability.Serializable | crates/electro-agent/src/executor.rs:61-177 | A completed schedule in which every call returned ends with the store and the outputs of running the calls one after another in list order |
| Serializability.SchedulesAgree | crates/electro-agent/src/executor.rs:55-57 | Store and results do not depend on the schedule, the grouping or the concurrency limit |
| Serializability.KeepToPathsGrouped | crates/electro-agent/src/executor.rs:245-331 | If calls touch only their path arguments and write only their write paths, conflicting calls are in one group |
| Serializability.PathRespectingCallsSerializable | crates/electro-agent/src/executor.rs:61-177 | With the detected groups such calls are serializable, whatever they do |
| GroupingLimits.UngroupedConflictBreaks | crates/electro-agent/src/executor.rs:91-93 | If two conflicting calls are in different groups, some tools with these footprints have a schedule that no list-order run explains |
| GroupingLimits.SerializableIffConflictsGrouped | crates/electro-agent/src/executor.rs:61-177 | For given footprints every schedule of every tool is serializable if and only if conflicting calls share a group |
| GroupingLimits.HiddenShellAccessBreaks | crates/electro-agent/src/executor.rs:247-264 | A `shell` call without paths and a `file_write` are separate groups, and if the shell touches the file the batch is not serializable |
| WorkerNode.InvariantHolds | src/bin/worker-node.rs:149-303 | The invariant of the two maps, the owners and the followers holds in every interleaving, with cancellation at every await |
| WorkerGuarantees.NoOverlap | src/bin/worker-node.rs:209-218 | At most one handler per request id is between claim and removal, and the in-flight entry exists exactly then |
| WorkerGuarantees.HandlersGoOn | src/bin/worker-node.rs:149-303 | A handler that neither waits for a notification nor has ended can always take its next step, whatever the others do |
| WorkerGuarantees.RequestsMayFail | src/bin/worker-node.rs:149-303 | A request can be refused until it claims and cancelled at any await, and neither touches the two maps |
| WorkerGuarantees.RemovedOwnersReply | src/bin/worker-node.rs:290-303 | Once an owner has removed its entry it cannot be cancelled any more: it notifies and replies |
| WorkerGuarantees.WokenFindsResponse | src/bin/worker-node.rs:220-234 | A woken follower finds a cached response: the CONFLICT reply is never sent |
| WorkerGuarantees.FollowerIsAnswered | src/bin/worker-node.rs:220-234 | In every run a woken follower answers OK with the response that is cached for its id |
| WorkerGuarantees.CacheHoldsLastPublished | src/bin/worker-node.rs:178-300 | The cache holds, for each id, exactly the response published last |
| WorkerGuarantees.OwnerRepliesOwn | src/bin/worker-node.rs:258-303 | An owner answers with the response of its own execution |
| WorkerGuarantees.RepliesFit | src/bin/worker-node.rs:178-303 | In every reachable state a reply is OK exactly if it has a response, and none is CONFLICT |
| WorkerGuarantees.SecondExecutionOnlyThroughGap | src/bin/worker-node.rs:178-218 | Two executions of a request id need a completed-check before the first publication and a claim after the first removal |
| WorkerGuarantees.GapIsReachable | src/bin/worker-node.rs:178-218 | There is such a run: a request executes although its response is cached |
| WorkerGuarantees.ClaimOutcome | src/bin/worker-node.rs:178-218 | A check after a publication is answered from the cache, and a claim makes an owner exactly if there is no holder |
| WorkerGuarantees.ResponsesAreProduced | src/bin/worker-node.rs:258-303 | Every response in the cache, in hand or sent comes from an earlier execution of the same request id |
| WorkerGuarantees.LostWaiterStays | src/bin/worker-node.rs:220-221 | A handler that waits on a notifier whose owner is gone waits in every continuation |
| WorkerGuarantees.CancelledOwnerBlocks | src/bin/worker-node.rs:209-218 | An owner cancelled between claim and removal keeps the entry in every continuation, and no other handler ever holds the request |
| WorkerGuarantees.LaterClaimFollows | src/bin/worker-node.rs:209-221 | Every later claim of that request makes a follower of the cancelled owner |
| WorkerGuarantees.LiveOwnerWakes | src/bin/worker-node.rs:290-300 | A waiter whose owner is not gone is woken by the owner's next steps |
| WorkerGuarantees.LostExactlyIfLate | src/bin/worker-node.rs:209-221 | A waiter is lost exactly if its owner was cancelled, or notified before it began to wait |
| WorkerGuarantees.LostThroughCancellation | src/bin/worker-node.rs:209-221 | A run in which the owner is cancelled and the follower then waits for ever |
| WorkerGuarantees.LostThroughEarlyNotification | src/bin/worker-node.rs:209-300 | A run in which the owner finishes and notifies before the follower begins to wait, although the response is cached |
| Delegation.InvariantHolds | crates/electro-agent/src/delegation.rs:388-404 | Over every interleaving of fetch-add and fetch-sub: counter = successes + pending rollbacks, and a rollback is pending only when the successes have reached the limit |
| Delegation.LimitHolds | crates/electro-agent/src/delegation.rs:388-404 | Successes never exceed the limit, their numbers are distinct and within it, and a registration is refused only when they have reached it |
| Delegation.QuiescentCount | crates/electro-agent/src/delegation.rs:388-404 | With no rollback pending the counter is min(limit, attempts) |
| Delegation.CanSpawnIsExact | crates/electro-agent/src/delegation.rs:366-370 | `can_spawn` is false exactly when the successes have reached the limit, also during rollbacks |
| Delegation.DelegationManager.RegisterSpawn | crates/electro-agent/src/delegation.rs:388-404 | One thread: the next number below the limit; at the limit an error and the counter as it was, also next to the wrap-around |
| Delegation.DelegationManager.PlanDelegation | crates/electro-agent/src/delegation.rs:427-456 | Keeps the longest prefix of the parts that fits the remaining budget, an error exactly if there is none |
| Turns.GroupIntoTurns | crates/electro-agent/src/history_pruning.rs:157-194 | The walk returns the turns of the specification, and these tile the history |
| Turns.TilingMeaning | crates/electro-agent/src/history_pruning.rs:157-194 | In a tiling every position lies in exactly one turn, and turns are in order |
| Turns.PairInOneTurn | crates/electro-agent/src/history_pruning.rs:164-185 | In a well-paired history the turn that a tool use starts holds all its results |
| Turns.TurnIsUseWithAnswers | crates/electro-agent/src/history_pruning.rs:169-190 | A turn holds nothing but its first message and messages that answer a tool use of it |
| Turns.TurnEndsAtFirstOther | crates/electro-agent/src/history_pruning.rs:169-190 | A turn goes on exactly as long as messages answer a use of its first message that is still open: it ends at the first that does not |
| HistoryPruning.SortTurns | crates/electro-agent/src/history_pruning.rs:735-740 | All turns, by score and then position |
| HistoryPruning.PruneHistory | crates/electro-agent/src/history_pruning.rs:704-793 | Keeps a subsequence of at most `max_messages`, kept plus dropped is all; the dropped turns precede every kept turn in (score, position) order, and without the last of them the history would still be too long |
| HistoryPruning.PairsStayTogether | crates/electro-agent/src/history_pruning.rs:146-151 | A tool use and its result lie in one turn, so pruning keeps or drops both |
| HistoryPruning.PruneHistorySafeIff | crates/electro-agent/src/history_pruning.rs:704-793 | Pruning by score orphans no result for any size limit if and only if every result has a use of its id in its own turn, or in a turn that goes later in (score, position) order |
| HistoryPruning.PruningOrphansAResult | crates/electro-agent/src/history_pruning.rs:704-793 | A history of three messages, with the scores of the classifier, of which pruning to two keeps the result without its use |
| HistoryPruning.PruningSafeIff | crates/electro-agent/src/history_pruning.rs:716-718 | No choice of dropped turns, by score or not, leaves an orphaned result if and only if every result has a use of its id in its own turn |
| HistoryPruning.PruningKeepsPairing | crates/electro-agent/src/history_pruning.rs:716-718 | A well-paired history without orphans meets that condition, so pruning leaves no orphan in it |
| HistoryPruning.TurnScoreIsHighest | crates/electro-agent/src/history_pruning.rs:720-733 | The score of a turn is the highest of its messages |
| HistoryPruning.LaterScoresNoLess | crates/electro-agent/src/history_pruning.rs:251-265 | Of two messages of equal importance the later never scores less |
| HistoryPruning.LastFourScoreMore | crates/electro-agent/src/history_pruning.rs:251-265 | The score is the importance, and 3 more for exactly the last four messages |
| HistoryPruning.EarlierGoFirst | crates/electro-agent/src/history_pruning.rs:704-793 | Over a history without tool uses, a message of the last four is dropped only after every earlier one whose importance is less than 3 above its own |
| HistoryPruning.NewestStay | crates/electro-agent/src/history_pruning.rs:704-793 | With equal importance exactly the last `max_messages` messages stay |
| HistoryPruning.RemoveOrphanedToolResults | crates/electro-agent/src/history_pruning.rs:199-234 | The retain pass, as the function the lemmas below are about |
| HistoryPruning.WithoutOrphansMeaning | crates/electro-agent/src/history_pruning.rs:217-225 | Messages stay or go as a whole and in order, and one stays exactly if every result in it has a tool use of its id in the list |
| HistoryPruning.OnePassSufficesIff | crates/electro-agent/src/history_pruning.rs:199-234 | One pass leaves no orphan if and only if no removed message takes along a tool use that a staying message needs |
| HistoryPruning.UnmixedOnePassSuffices | crates/electro-agent/src/history_pruning.rs:199-234 | So one pass suffices when no message mixes tool uses and results |
| HistoryPruning.MixedOrphanSurvives | crates/electro-agent/src/history_pruning.rs:199-234 | With a mixed message an orphan can survive |
| HistoryPruning.MixedMessagesExist | crates/electro-agent/src/history_pruning.rs:199-234 | A concrete assistant message and its answer for which one pass leaves an orphan |
| Context.KeepOlder | crates/electro-agent/src/context.rs:398-415 | Keeps the longest suffix of whole turns that fits the budget: it fits, and from no earlier turn boundary would it |
| Stripping.StripToolMessagesFromOlder | crates/electro-agent/src/context.rs:571-603 | Retaining, editing and retaining again: the three passes compute the stripping of each message on its own |
| Stripping.ThreePasses | crates/electro-agent/src/context.rs:571-603 | Tool messages, tool parts and emptied messages go, single texts are flattened, and the passes do not interfere |
| Stripping.OlderMessagesGo | crates/electro-agent/src/context.rs:571-603 | An older message, wherever it is, goes exactly if it is a tool message or nothing but an empty text is left of it; the others are sent without their tool parts, in order |
| Stripping.StripToolsMeaning | crates/electro-agent/src/context.rs:571-594 | Stripping keeps the sender and the other parts in order, and leaves no tool part |
| Stripping.StripImagesMeaning | crates/electro-agent/src/context.rs:507-526 | Stripping images keeps the sender and the other parts in order, and leaves no image |
| Stripping.UnchangedIff | crates/electro-agent/src/context.rs:565-603 | Exactly which messages the stripping leaves as they are |
| Stripping.UserMessagesChange | crates/electro-agent/src/context.rs:565-603 | Three messages of a user that change: one is flattened, one loses its tool result, one goes |
| Stripping.SurvivesIff | crates/electro-agent/src/context.rs:457-467 | Of the assembled list exactly the messages with a result whose tool use is not among the recent ones are removed: the pairs the recent window cut |
| Stripping.SentIs | crates/electro-agent/src/context.rs:457-539 | With vision the injected, the stripped older and the surviving recent messages are sent as they are; without, each of them without its images and otherwise the same |
| Stripping.FinalListIsPaired | crates/electro-agent/src/context.rs:535-539 | End to end: every tool result that is sent has its tool use in what is sent, if no recent message mixes the two, although the window cuts pairs and older tool parts are stripped |
| Stripping.FinalTokens | crates/electro-agent/src/context.rs:457-539 | Stripping tool parts and images and removing orphans never makes the list larger |
| Context.LegacySections | crates/electro-agent/src/context.rs:263-375 | Each section is added exactly if it fits its share and what is left, its text and charge are the given ones, and together they stay within what is available |
| Context.MemorySections | crates/electro-agent/src/context.rs:217-375 | The λ section, or the legacy sections if it is empty; together within what is available, up to the λ slack |
| Context.BuildContext | crates/electro-agent/src/context.rs:128-539 | What is charged per category and its bound; the older history kept is the longest suffix that fits; the list that is sent, written out: summary, digest, blueprints, memories, older messages without tool parts, recent messages that survive, all without images exactly if the model has no vision; no orphaned result if no recent message mixes uses and results; and what it costs |
| Context.HistoryIsSplit | crates/electro-agent/src/context.rs:208-215 | Older and recent messages are a suffix of the history: the last 60, and in front of them all others or the last 2 per allowed turn |
| Context.LambdaTakesWhatIsLeft | crates/electro-agent/src/context.rs:217-237 | The λ budget is exactly what is left of the window or of the request, whichever is less |
| Context.ChargedWithinSlack | crates/electro-agent/src/context.rs:377-385 | The charged tokens stay within the budget, unless the part that is always kept is larger already; with a λ section up to its rounding slack |
| Context.SentTokens | crates/electro-agent/src/context.rs:457-539 | Prompt, tools, overhead and the messages sent are at most what is charged plus the summary, the digest and what the frames cost beyond their charge |
| Context.RequestFitsSkullIff | crates/electro-agent/src/context.rs:231-245 | For the budget that a request passes, the key invariant holds for all of up to 500 stored memories if and only if it does in the worst case |
| Context.SmallBudgetFits | crates/electro-agent/src/context.rs:231-245 | It holds if the budget of the request leaves 376 tokens of the window free beside reserve and guard |
| Context.LargeBudgetBreaks | crates/electro-agent/src/context.rs:231-245 | It fails if the request may fill the window and a memory fits in there |
| LambdaMemory.BudgetFitsSkull | crates/electro-agent/src/lambda_memory.rs:68-78 | Occupied part and λ budget fill the skull exactly, if the occupied part fits at all |
| LambdaMemory.PressureLowersFidelity | crates/electro-agent/src/lambda_memory.rs:45-60 | With less budget no memory is entitled to a higher tier |
| LambdaMemory.FidelityIsShown | crates/electro-agent/src/lambda_memory.rs:139-176 | With room for it, the text shown is that of the tier the score is entitled to |
| LambdaMemory.ThresholdsRise | crates/electro-agent/src/lambda_memory.rs:45-60 | The thresholds are the configured ones with the full budget, 2, 1 and 0.5 higher with none, and linear in between |
| LambdaMemory.RepresentationIsBest | crates/electro-agent/src/lambda_memory.rs:139-176 | The chosen text is that of the highest tier that the score entitles to and that fits, and there is none exactly if no tier fits |
| LambdaMemory.NothingMoreFits | crates/electro-agent/src/lambda_memory.rs:252-281 | A pass leaves out no memory of its kind that would still fit what is left in the end |
| LambdaMemory.PackPass | crates/electro-agent/src/lambda_memory.rs:252-281 | One packing pass: text and count of the specified picks, and `remaining` plus their cost is the budget, so it never underflows |
| LambdaMemory.RankCandidates | crates/electro-agent/src/lambda_memory.rs:239-240 | A permutation of the candidates by descending score, in which equal scores keep their order |
| LambdaMemory.AssembleLambdaContext | crates/electro-agent/src/lambda_memory.rs:183-299 | The rendered packing, nothing if it is disabled or nothing was packed, and its estimated cost |
| LambdaMemory.PackingMeaning | crates/electro-agent/src/lambda_memory.rs:252-281 | Each candidate is packed at most once, explicit saves precede the rest, each kind is in score order, and costs fit |
| LambdaMemory.CostWithinSlack | crates/electro-agent/src/lambda_memory.rs:242-298 | The reported cost is at most budget + floor(3(k + 2) / 4) for k packed entries |
| LambdaMemory.SkullInvariant | crates/electro-agent/src/lambda_memory.rs:6-6 | bone + active + reserve + guard + λ is within the skull up to that slack, whenever the occupied part fits |
| LambdaLimits.SectionFitsIff | crates/electro-agent/src/lambda_memory.rs:242-298 | The λ section stays within its budget for all formatted memories if and only if the budget less the frame is below the minimum for one memory, that is, the budget below 33 tokens |
| LambdaLimits.DatedCost | crates/electro-agent/src/lambda_memory.rs:82-135 | Every text of a stored memory costs at least 9 tokens |
| LambdaLimits.SectionIsBounded | crates/electro-agent/src/lambda_memory.rs:242-298 | No λ section of up to n stored memories is larger than budget + floor(3(k + 2) / 4) with k = min(n, 1 + floor((budget - 33) / 9)) |
| LambdaLimits.WorstCase | crates/electro-agent/src/lambda_memory.rs:242-298 | For every budget from 33 tokens and every n > 0 there are memories whose section is that large |
| LambdaLimits.SkullInvariantIff | crates/electro-agent/src/lambda_memory.rs:6-6 | For any budget the key invariant holds for all of up to n stored memories if and only if the occupied part and the worst case fit the skull |
| LambdaLimits.WholeBudgetIff | crates/electro-agent/src/lambda_memory.rs:68-78 | With the whole λ budget it holds for all of them if and only if the occupied part fits and leaves less than 33 tokens |
| LambdaLimits.SlackIsAttained | crates/electro-agent/src/lambda_memory.rs:82-129 | For every k > 0 there are a skull and k stored memories that exceed it by exactly floor(3(k + 2) / 4) |
| LambdaLimits.FormattedIsCostly | crates/electro-agent/src/lambda_memory.rs:82-129 | Every formatted text costs at least one token |
| LambdaLimits.PackedIff | crates/electro-agent/src/lambda_memory.rs:252-281 | Any candidate of any list is packed exactly if the minimal room is left when its turn comes and one of the texts it is entitled to fits |
| LambdaLimits.SavePackedIffNotGone | crates/electro-agent/src/lambda_memory.rs:168-175 | In any list, with room for the largest texts of all explicit saves and a minimal memory more, a save is packed exactly if its score is above the gone threshold |
| LambdaLimits.SaveLeftOutIff | crates/electro-agent/src/lambda_memory.rs:251-264 | With any budget, a save that is not gone is left out exactly if the room when its turn comes is below the minimum or below each of its entitled texts |
| LambdaLimits.SecondSaveLeftOut | crates/electro-agent/src/lambda_memory.rs:251-264 | Two equal saves and room for one: the second is left out although it is not gone |
| MemoryBlocks.StripMemoryBlocks | crates/electro-agent/src/lambda_memory.rs:406-416 | The loop ends on every text, also when a removal splices new tags together |
| MemoryBlocks.NoBlockLeft | crates/electro-agent/src/lambda_memory.rs:406-416 | In the result no opening tag is followed by a closing tag |
| MemoryBlocks.StripIsFinal | crates/electro-agent/src/lambda_memory.rs:406-416 | Stripping twice is stripping once |
| MemoryBlocks.NothingToStrip | crates/electro-agent/src/lambda_memory.rs:408-415 | A text without a block is only trimmed |
| MemoryBlocks.BlockIsCutOut | crates/electro-agent/src/lambda_memory.rs:408-411 | A step removes exactly the first opening tag, the next closing tag and what is between |
| Decimals.PrintThenParse | crates/electro-agent/src/blueprint.rs:861-862 | A printed number parses back if it fits `u32`, and fails to parse if not |
| Decimals.ParsesIff | crates/electro-agent/src/blueprint.rs:861-862 | Which texts parse, and to what: a plus sign if any, zeros if any, and the printed number, if it fits `u32` |
| TaskGraph.CountEdges | crates/electro-agent/src/task_decomposition.rs:387-401 | In any order of the hash map: the in-degree of a task is the number of its dependencies, and it is entered under each as often as it lists it |
| TaskGraph.Release | crates/electro-agent/src/task_decomposition.rs:413-422 | Lowers the in-degrees of the dependents, never below zero, and queues exactly those that reach zero, once |
| TaskGraph.Visit | crates/electro-agent/src/task_decomposition.rs:403-432 | The queue loop ends, visits each task at most once and after its dependencies, and all of them if and only if there is no cycle |
| TaskGraph.StuckHasCycle | crates/electro-agent/src/task_decomposition.rs:425-430 | Tasks of which each depends on another one of them have a cycle |
| TaskGraph.New | crates/electro-agent/src/task_decomposition.rs:107-146 | The graph is built if and only if ids are distinct, dependencies exist and there is no cycle, and each error says what is wrong |
| TaskGraph.TopologicalOrder | crates/electro-agent/src/task_decomposition.rs:442-497 | Every task once and after all its dependencies, or the error exactly if there is a cycle |
| TaskGraph.SomeTaskIsReady | crates/electro-agent/src/task_decomposition.rs:152-173 | In a graph without cycles, while nothing runs or has failed and something is pending, some task is ready |
| TaskGraph.AcyclicIffProgress | crates/electro-agent/src/task_decomposition.rs:100-106 | A graph has no cycle if and only if in every such state some task is ready: exactly the graphs that get stuck are refused |
| TaskGraph.Work.ReadyTasks | crates/electro-agent/src/task_decomposition.rs:152-173 | Exactly the pending tasks with all dependencies completed, in the order of the graph |
| TaskGraph.Work.MarkRunning | crates/electro-agent/src/task_decomposition.rs:175-217 | A task starts exactly if it is pending and all its dependencies are completed; a running one stays, an ended or waiting one is refused, with a dependency that is not completed; no other task changes |
| TaskGraph.Work.MarkCompleted | crates/electro-agent/src/task_decomposition.rs:219-228 | Completes that task and changes no other |
| TaskGraph.Work.MarkFailed | crates/electro-agent/src/task_decomposition.rs:230-239 | Fails that task and changes no other |
| Phases.ApplyDependencies | crates/electro-agent/src/blueprint.rs:932-967 | The in-place pass computes, for every phase, the dependencies of the specification, with later annotations for a number winning |
| Phases.DependsOnlyEarlier | crates/electro-agent/src/blueprint.rs:938-966 | Every phase depends on at most one phase, a strictly earlier one, whatever the annotations |
| Phases.ParallelMeaning | crates/electro-agent/src/blueprint.rs:950-958 | With distinct ids, parallel with N means N's final dependencies for an earlier N, and none for a later, the same or a missing one |
| Phases.BackwardIsAccepted | crates/electro-agent/src/blueprint.rs:938-966 | Tasks with distinct ids and dependencies only on earlier ones have no unknown dependency and no cycle |
| Phases.PhasesToTaskGraph | crates/electro-agent/src/blueprint.rs:802-827 | Builds the graph of the phases, and none of no phases or of phases that the validation refuses |
| Phases.GraphMeaning | crates/electro-agent/src/blueprint.rs:802-827 | The graph has the ids of the phases in their order, and each phase its own dependencies |
| Phases.GraphBuildsIff | crates/electro-agent/src/blueprint.rs:802-827 | The graph is built if and only if there are phases and their ids are distinct: a missing id or a cycle never stands in the way |
| Blueprint.ReadSections | crates/electro-agent/src/blueprint.rs:762-782 | The line loop with its current-phase variables yields the phases and annotations of the sections of the text |
| Blueprint.ParseBlueprintPhases | crates/electro-agent/src/blueprint.rs:755-795 | Parsing and linking together give the phases of the sections |
| BlueprintText.TitleReadsBack | crates/electro-agent/src/blueprint.rs:876-898 | A readable name and any annotation are taken apart again exactly |
| BlueprintText.HeaderReadsBack | crates/electro-agent/src/blueprint.rs:846-873 | A printed header line is read as its number, name and annotation |
| BlueprintText.HeaderIsRead | crates/electro-agent/src/blueprint.rs:846-873 | Any line that says `### `, `Phase `, a number, a colon and a title is read as that header, whatever blanks it has |
| BlueprintText.HeadersAreNumbered | crates/electro-agent/src/blueprint.rs:846-873 | No other line is read as a header |
| BlueprintText.AnnotationMeaning | crates/electro-agent/src/blueprint.rs:876-900 | The annotation of any title: the first `(independent)` in any case; else the first `(parallel with phase`, a number and a parenthesis; else none, and the name is what stands before it |
| BlueprintText.HeaderOpensSection | crates/electro-agent/src/blueprint.rs:762-782 | After any lines a header and the lines below it, up to the next header, are one more section |
| BlueprintText.GoalIsFound | crates/electro-agent/src/blueprint.rs:904-915 | The goal is what follows the goal mark in the first line that starts with it |
| BlueprintText.PhaseGoal | crates/electro-agent/src/blueprint.rs:904-924 | The goal of a phase is what follows the mark in the first line of its section that starts with it, or nothing |
| BlueprintText.RoundTrip | crates/electro-agent/src/blueprint.rs:755-924 | Printing records and parsing the text gives the same records back, and phases with their ids, names and bodies |
| BlueprintText.PhaseDependencies | crates/electro-agent/src/blueprint.rs:926-967 | For any text with distinct numbers: what each phase depends on, from the annotations of its header |
| BlueprintText.TextGivesGraphIff | crates/electro-agent/src/blueprint.rs:802-827 | A text with ASCII titles gives a graph if and only if it has a phase header and no number occurs twice |
| BlueprintText.TextGraphProgresses | crates/electro-agent/src/blueprint.rs:926-967 | If a text with ASCII titles gives a graph, then while nothing runs or has failed and a phase is pending, some phase is ready |
| CircuitBreaker.Breaker.CheckExecution | crates/electro-agent/src/circuit_breaker.rs:79-115 | Admission and the new state are those of the specification |
| CircuitBreaker.Breaker.RecordSuccess | crates/electro-agent/src/circuit_breaker.rs:118-139 | A success closes the circuit, clears the count and restores the base timeout |
| CircuitBreaker.Breaker.RecordFailure | crates/electro-agent/src/circuit_breaker.rs:142-200 | A failure opens at the threshold, and reopens with a doubled, capped timeout from half-open |
| CircuitBreaker.ClosedMeansFewFailures | crates/electro-agent/src/circuit_breaker.rs:117-172 | Over whole runs the circuit is closed exactly while the failures in a row are below the threshold, and then has the base timeout |
| CircuitBreaker.BackoffIsCappedPower | crates/electro-agent/src/circuit_breaker.rs:188-189 | The n-th timeout is min(2^n base, 300 s) |
| CircuitBreaker.FailedTestsAreSpacedOut | crates/electro-agent/src/circuit_breaker.rs:79-200 | After an opening and with no success since, the m-th failed test comes no earlier than the first m timeouts together, and leaves the m-th doubling |
| CircuitBreaker.NothingAdmittedEarly | crates/electro-agent/src/circuit_breaker.rs:83-112 | After an opening and n failed tests nothing is admitted before the first n + 1 timeouts are over |
| CircuitBreaker.AdmittedExactlyAfterTimeout | crates/electro-agent/src/circuit_breaker.rs:83-112 | An open circuit admits a request exactly if min(2^n base, 300 s) have passed since it opened, after n failed tests, whatever failures of earlier requests came in between |
| CircuitBreaker.HalfOpenAdmitsEveryone | crates/electro-agent/src/circuit_breaker.rs:113-113 | From half-open until an outcome is recorded every request is admitted |
| CircuitBreaker.SameTestIff | crates/electro-agent/src/circuit_breaker.rs:113-200 | Without a success, the circuit is still in the same test period exactly if nothing but requests came since |
| CircuitBreaker.OneTestRequestIff | crates/electro-agent/src/circuit_breaker.rs:24-24 | More than the one request is let through in a test period if and only if the call after the one that began it is another request |
| CircuitBreaker.TwoTestRequests | crates/electro-agent/src/circuit_breaker.rs:24-24 | A run from the initial state in which two requests are let through by one test |
| Proactive.Manager.Add | crates/electro-agent/src/proactive.rs:186-201 | A rule without name or prompt is refused and changes nothing, any other is appended |
| Proactive.Manager.Remove | crates/electro-agent/src/proactive.rs:204-214 | Exactly the rules with the id go, and it fails exactly if there is none |
| Proactive.Manager.EvaluateTrigger | crates/electro-agent/src/proactive.rs:225-294 | The loop returns the actions of the eligible rules, marks those rules and no others, and resets a stale window |
| ProactiveRuns.MatchesIff | crates/electro-agent/src/proactive.rs:366-416 | Which reports match which triggers: kind, and path and event, name, endpoint, or metric, with the reported condition on the reported value |
| ProactiveRuns.RuleActsIff | crates/electro-agent/src/proactive.rs:239-293 | A rule among any others acts in an evaluation exactly if it is enabled, matches and its cooldown is over |
| ProactiveRuns.EvaluationIs | crates/electro-agent/src/proactive.rs:225-294 | An evaluation returns the eligible actions in rule order, or none if it is disabled or the cap is used up, with the counter back at 0 after an hour; exactly the rules that act are marked |
| ProactiveRuns.FiringsAreSpacedOut | crates/electro-agent/src/proactive.rs:246-281 | Over any run two firings of a registered rule are at least its cooldown apart |
| ProactiveRuns.CooldownRespectedIff | crates/electro-agent/src/proactive.rs:249-251 | A cooldown is respected exactly if the clock arithmetic can represent it |
| ProactiveRuns.CounterIsRecorded | crates/electro-agent/src/proactive.rs:225-325 | Within a window the counter grows by the number of actions recorded; a window begins with 0 |
| ProactiveRuns.WindowsAreHours | crates/electro-agent/src/proactive.rs:225-240 | Windows begin at evaluations, and each at least an hour after the one before |
| ProactiveRuns.SomeReportMisfires | crates/electro-agent/src/proactive.rs:396-416 | For every threshold and condition of a rule some report of the metric fires it without a crossing, or crosses without firing it |
| ProactiveRuns.FiresWhenCrossedIff | crates/electro-agent/src/proactive.rs:396-416 | Over the reports that carry the rule's own condition, firing agrees with crossing if and only if the threshold is 0 for "above" or the largest float for "below" |
| ProactiveRuns.FiresBelowItsThreshold | crates/electro-agent/src/proactive.rs:396-416 | A rule for a metric above 90 fires at 5 |
| ProactiveRuns.CapHolds | crates/electro-agent/src/proactive.rs:262-272 | If every returned action is recorded before the next evaluation, counter plus pending actions stay within max - 1 + R, and 0 for a cap of 0 |
| ProactiveRuns.EvaluationExceedsCapIff | crates/electro-agent/src/proactive.rs:262-293 | An evaluation exceeds the cap exactly if it is not used up but more rules are eligible than are left of it |
| ProactiveRuns.CapExceededIff | crates/electro-agent/src/proactive.rs:262-293 | Over a run with actions recorded in time, counter plus pending actions exceed the cap at some point if and only if some evaluation has more eligible rules than are left, or the cap is set below what is used |
| ProactiveRuns.CapCanBeExceeded | crates/electro-agent/src/proactive.rs:133-137 | Two rules for one trigger act together under a cap of one |
| PromptPatches.LowestEvictableMeaning | crates/electro-agent/src/prompt_patches.rs:330-342 | The eviction index is that of the first lowest-confidence expired or rejected patch, and there is one if any such patch exists |
| PromptPatches.EvictedIff | crates/electro-agent/src/prompt_patches.rs:330-342 | Some patch is evicted exactly if some patch is expired or rejected |
| PromptPatches.Manager.EvictOne | crates/electro-agent/src/prompt_patches.rs:330-356 | Takes out exactly that patch, and nothing if there is none |
| PromptPatches.Manager.ProposePatch | crates/electro-agent/src/prompt_patches.rs:163-199 | An empty patch or a full list without an evictable patch is refused and changes nothing; otherwise the patch is appended, approved at once if low-risk and confident |
| PromptPatches.Manager.Decide | crates/electro-agent/src/prompt_patches.rs:202-239 | Only a proposed patch is decided; otherwise the error and no change |
| PromptPatches.Manager.RecordTaskOutcome | crates/electro-agent/src/prompt_patches.rs:289-307 | Exactly the approved patches among the ids get one more outcome in their running average |
| PromptPatches.Manager.ExpireUnderperforming | crates/electro-agent/src/prompt_patches.rs:311-326 | Exactly the approved patches with enough applications and too low a rate expire |
| PatchRuns.RateIsExact | crates/electro-agent/src/prompt_patches.rs:289-307 | Over any run success_rate times applied_count is the number of successes recorded while the patch was approved |
| PatchRuns.RateIsARate | crates/electro-agent/src/prompt_patches.rs:89-92 | So the rate is in [0, 1] and is that quotient |
| PatchRuns.StatusOnlyMovesForward | crates/electro-agent/src/prompt_patches.rs:45-56 | Over any stretch of a run a patch goes only from proposed to approved or rejected and from approved to expired, and keeps everything but status and statistics |
| PatchRuns.StatusStep | crates/electro-agent/src/prompt_patches.rs:202-326 | Each change of status is made by the one event that may make it |
| PatchRuns.CapacityHolds | crates/electro-agent/src/prompt_patches.rs:170-176 | The list never exceeds `max_patches` |
| PatchRuns.OnlyLowestIsEvicted | crates/electro-agent/src/prompt_patches.rs:330-356 | A patch leaves the list only when a proposal finds it full, and then it is expired or rejected and of the lowest confidence among those |

## Left out

- Programs.AccessCommutes: what a call does is any function from what it has read so far to its next access, so calls are deterministic given what they read; a call that also reads a clock or the network is not covered.
- Executor.InvariantHolds: the branch for a closed semaphore is not modelled, since nothing closes it.
- WorkerNode.InvariantHolds: the response cache never evicts, as in the code; a restart of the process is not modelled.
- HistoryPruning.PruneHistory: scores are integers (the source's are 1, 3, 5, 7 or 10, and 3 more for recent messages), the classification of a message is any function, and the text of the summary is left out.
- Context.BuildContext: the dropped-messages summary, the chat digest and the dashboard are inputs that are not charged, as in the code; so are the texts of blueprints and memories and the shares that the floating-point fractions of the budget round to.
- LambdaMemory.AssembleLambdaContext: a candidate's final score is an input: the exponential decay and the relevance boost are not modelled, and scores are reals.
- Blueprint.ParseBlueprintPhases: lower-casing is modelled for ASCII; for other letters the source lower-cases to strings of other lengths. BlueprintText.RoundTrip is about ASCII names for this reason.
- BlueprintText.TextGivesGraphIff: about texts with ASCII titles: in others the offset of an annotation is found in the lower-cased title and used in the original, where it can be out of range, and the source then panics.
- BlueprintText.TextGraphProgresses: about texts with ASCII titles, for the same reason.
- LambdaLimits.SkullInvariantIff: a memory's creation time and importance are given as the texts they are formatted to. A stored memory has a hash of at least 7 and a creation time of at least 16 characters; a time that has no date, which is formatted as `unknown`, is not covered.
- TaskGraph.TopologicalOrder: the alphabetical order among tasks that become ready together is not stated.
- TaskGraph.Visit: hash maps are iterated in an arbitrary order; the sorted queue of the topological sort is one of these orders. Goal, description and results of a task are left out.
- CircuitBreaker.Breaker.RecordFailure: calls are sequential; the interleaving of the atomic fields of two concurrent calls is not modelled.
- Proactive.Manager.EvaluateTrigger: metric values are reals, and the action counter does not wrap.
- PatchRuns.RateIsExact: confidences and rates are reals; rounding of the 32-bit average is not modelled.
- Tool validation, sandboxing and the call of a tool itself (`execute_tool`) are a call's program.
- Splitting a delegated text into parts and assigning tools to the parts.
- The backoff with jitter of the circuit breaker, formatting of prompts and summaries, persistence, HTTP and the model call.
- The remaining modules of the crate (output compression, budgets, learning, prompt optimisation, classification): accumulators and formatting that would only add easy members.
