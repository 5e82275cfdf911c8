# ArmoniK.Core scheduling core in Dafny

This project models five pieces of the core of ArmoniK.Core, a distributed task scheduler:

- **Task lifecycle rules** (`task_table.dfy`, module `TaskLifecycle`). These are the extension operations over the task table:
  - the four single-task terminal setters (cancelled, error, success, retry);
  - cancelling a session;
  - cancelling a list of tasks;
  - finalizing task creation.
- **The in-memory result table** (`result_model.dfy`, module `ResultModel`; `result_table.dfy`, module `MemoryResultTable`). It is a nested map from session id to result id to result. The operations are:
  - create;
  - ownership transfer and explicit ownership;
  - dependency registration;
  - single and session-wide delete;
  - single and bulk update;
  - a paged, ordered listing.
- **The exception side-queue of a task queue** (`task_queue.dfy`, module `TaskQueue`). It is a FIFO of deferred failures with a non-blocking try-dequeue.
- **The running-task processor loop** (`running_task_processor.dfy`, module `RunningTaskProcessing`). Each iteration:
  - moves the post-processing stage's failures into the running queue's exception queue;
  - reads a task handler;
  - executes it under a release guard;
  - hands it to post-processing;
  - records any failure instead of stopping.
- **The chunked create-large-task request state machine** (`create_large_task.dfy`, module `CreateLargeTask`). Its behaviour is the one the state machine's unit tests pin down.

`failures.dfy` (module `Failures`) holds the error kinds and the `Outcome` and `Option` wrappers shared by all modules.

Each stateful entity is a class whose fields the methods update:

- `TaskTable.tasks`
- `ResultTable.results` and `ResultTable.isInitialized`
- `TaskQueueBase.exceptions`
- `StateMachine.state`

Each method's `ensures` clause gives the new state as a function of the old one. The value-level functions that specify the methods are:

- `CreateAll`, `ReassignAll`, `AddDependencies`, `SetOwners`, `UpdatedWhere` and `Page` for the result table;
- `BodyEffect`, `IterationEffect` and `LoopEffect` for the processor loop;
- `Run` for the state machine;
- `Replay` for the exception queue.

The lemmas state and prove what the system promises about those functions.

A thrown exception becomes a `Fail(...)` outcome, with the state left as the source leaves it:

- `SessionNotFound`, `ResultNotFound` and `TaskNotFound` for a missing session, result or task;
- `KeyAlreadyExists` for a duplicate key in `Create`;
- `KeyNotFound` for the dictionary indexer;
- `InvalidOperation` for an illegal state-machine event.

Some inputs come from collaborators or from the environment. They become parameters:

- the current time (`now`) of the bulk task updates;
- the filter and ordering-key expressions, which become Dafny functions;
- the outcome of reading, executing and handing off a handler in each loop iteration.

## Model

| member | source | states |
|---|---|---|
| TaskLifecycle.IsFinalStatus | Common/src/Storage/TaskTableExtensions.cs:29-36 | The final statuses: Completed, Cancelled, Error, Retried and Timeout |
| TaskLifecycle.CancellableInSession | Common/src/Storage/TaskTableExtensions.cs:196 | The session cancel selects the session's tasks whose status is not final |
| TaskLifecycle.CancellableById | Common/src/Storage/TaskTableExtensions.cs:218-220 | The cancel by id selects listed tasks not Cancelled, Cancelling, Error, Completed or Retried |
| TaskLifecycle.Finalizable | Common/src/Storage/TaskTableExtensions.cs:241 | Finalizing selects listed tasks still in Creating |
| TaskLifecycle.TerminalUpdate | Common/src/Storage/TaskTableExtensions.cs:60-69 | The five-field update list shared by the terminal setters (also lines 96-106, 132-141 and 168-178) |
| TaskLifecycle.ExclusionSetsDiffer | Common/src/Storage/TaskTableExtensions.cs:29-36 | The session-wide final set and the by-id exclusion set differ: a Timeout task is skipped by the session cancel but picked by id, a Cancelling task the reverse; all other statuses are treated alike |
| TaskLifecycle.TerminalUpdateFields | Common/src/Storage/TaskTableExtensions.cs:60-69 | The terminal update list sets output, status, end date and both durations from the caller's copy, and nothing else |
| TaskLifecycle.TerminalUpdateIdempotent | Common/src/Storage/TaskTableExtensions.cs:96-106 | Applying a terminal update twice equals applying it once |
| TaskLifecycle.RepeatedTerminalUpdate | Common/src/Storage/TaskTableExtensions.cs:96-109 | After a terminal update the stored status is the target, so a repeated error or retry call reports false |
| TaskLifecycle.CancellingUpdate | Common/src/Storage/TaskTableExtensions.cs:197-201 | The cancel update list sets status Cancelling and the end date, nothing else |
| TaskLifecycle.SubmittingUpdate | Common/src/Storage/TaskTableExtensions.cs:241-246 | The finalize update list sets status Submitted and the submission date, nothing else |
| TaskLifecycle.MatchingBoundedByList | Common/src/Storage/TaskTableExtensions.cs:215-227 | A bulk update whose filter only accepts listed ids selects at most as many tasks as the list holds |
| TaskLifecycle.CancelByIdScenario | Common/src/Storage/TaskTableExtensions.cs:218-220 | Of listed tasks in Completed, Error, Cancelling and Dispatched, only the Dispatched one is selected |
| TaskLifecycle.ApplyAll | Common/src/Storage/TaskTableExtensions.cs:60-69 | An update list never changes the task id or session id |
| TaskLifecycle.TaskTable.constructor | Common/src/Storage/TaskTableExtensions.cs:57 | Wraps a task map that keeps every task under its own id |
| TaskLifecycle.TaskTable.ReadTask | Common/src/Storage/TaskTableExtensions.cs:259-265 | Returns the stored task under that id, or TaskNotFound |
| TaskLifecycle.TaskTable.UpdateOneTask | Common/src/Storage/TaskTableExtensions.cs:96-109 | Applies the list to the one task and returns it as it was before; TaskNotFound and no change when absent |
| TaskLifecycle.TaskTable.UpdateManyTasks | Common/src/Storage/TaskTableExtensions.cs:193-203 | Every task the filter selects gets the update list, every other task is unchanged, and the count is the number selected |
| TaskLifecycle.TaskTable.SetTaskCanceled | Common/src/Storage/TaskTableExtensions.cs:57-70 | Sets status Cancelled, an empty non-success output and the end date and durations, whatever the previous status |
| TaskLifecycle.TaskTable.SetTaskError | Common/src/Storage/TaskTableExtensions.cs:91-110 | Sets status Error with the detail and the end fields, and returns whether the previous status was not Error |
| TaskLifecycle.TaskTable.SetTaskSuccess | Common/src/Storage/TaskTableExtensions.cs:129-142 | Sets status Completed, a successful empty output and the end fields, whatever the previous status |
| TaskLifecycle.TaskTable.SetTaskRetry | Common/src/Storage/TaskTableExtensions.cs:163-182 | Sets status Retried with the detail and the end fields, and returns whether the previous status was not Retried |
| TaskLifecycle.TaskTable.CancelSession | Common/src/Storage/TaskTableExtensions.cs:193-203 | Tasks of the session not in a final status move to Cancelling with end date now; all others are unchanged |
| TaskLifecycle.TaskTable.CancelTasks | Common/src/Storage/TaskTableExtensions.cs:215-227 | Listed tasks not Cancelled, Cancelling, Error, Completed or Retried move to Cancelling; returns how many, at most the list length |
| TaskLifecycle.TaskTable.FinalizeTaskCreation | Common/src/Storage/TaskTableExtensions.cs:238-248 | Listed tasks in Creating move to Submitted with submission date now; returns how many, at most the list length |
| TaskLifecycle.ErrorReportedOnce | Common/src/Storage/TaskTableExtensions.cs:91-110 | Two error calls on a task not yet errored return true, then false |
| ResultModel.ApplyAll | Adaptors/Memory/src/ResultTable.cs:268-269 | An update list never changes a result's session id or result id |
| ResultModel.CreateAll | Adaptors/Memory/src/ResultTable.cs:78-87 | Create on values never removes a session or a key, and its only failure is KeyAlreadyExists |
| ResultModel.CreateKeepsExisting | Adaptors/Memory/src/ResultTable.cs:78-87 | Create never overwrites an existing entry, even when it fails |
| ResultModel.CreateSucceedsIffFresh | Adaptors/Memory/src/ResultTable.cs:78-87 | Create succeeds iff all keys are new and pairwise distinct, and then stores every result under its keys |
| ResultModel.FreshCons | Adaptors/Memory/src/ResultTable.cs:78-87 | Keys are fresh iff the first result's key is free and the rest are fresh once it is inserted |
| ResultModel.CreateFailsAtFirstTaken | Adaptors/Memory/src/ResultTable.cs:78-87 | A failing Create stops at the first result whose key is taken by the store or an earlier result; the failure names that result, the earlier results stay stored, and the store is what Create of them alone gives |
| ResultModel.CreateKeepsWellKeyed | Adaptors/Memory/src/ResultTable.cs:80-83 | After Create every result is still stored under its own session and result id, so ids stay unique per session |
| ResultModel.SessionUpdateKeepsWellKeyed | Adaptors/Memory/src/ResultTable.cs:38 | Replacing one session by a map with the same keys and results that keep their keys keeps the store well keyed |
| ResultModel.Reassign | Adaptors/Memory/src/ResultTable.cs:57-68 | One ownership pass on values: results owned by the old task get the new owner |
| ResultModel.ReassignAll | Adaptors/Memory/src/ResultTable.cs:55-68 | One pass per requested owner, in order |
| ResultModel.WinnerIsFirstOther | Adaptors/Memory/src/ResultTable.cs:55-69 | The winning owner is the first request naming a task other than the old owner |
| ResultModel.WinnerWhenNoOther | Adaptors/Memory/src/ResultTable.cs:55-69 | When every request names the old owner, the owner stays the old one |
| ResultModel.Winner | Adaptors/Memory/src/ResultTable.cs:55-69 | The winning owner is the old owner or one of the requested ones |
| ResultModel.ReassignToSelf | Adaptors/Memory/src/ResultTable.cs:57-67 | A request naming the old owner changes nothing |
| ResultModel.ReassignTwice | Adaptors/Memory/src/ResultTable.cs:55-69 | After a pass to a different task, a second pass finds nothing owned by the old task |
| ResultModel.FirstRequestWins | Adaptors/Memory/src/ResultTable.cs:55-69 | Several requests act as one reassignment to the first requested task that differs from the old owner |
| ResultModel.ReassignOnlyOwned | Adaptors/Memory/src/ResultTable.cs:57-67 | Only results owned by the old task change, and only their owner; the keys stay |
| ResultModel.AddDependencies | Adaptors/Memory/src/ResultTable.cs:103-112 | Keys and every field other than the dependents are unchanged; a failure names a result absent from the session |
| ResultModel.DependenciesAppended | Adaptors/Memory/src/ResultTable.cs:103-112 | Succeeds iff every named result exists; then each result's dependents are its old ones followed by all task ids listed for it, in order, without deduplication |
| ResultModel.DependenciesFailAtFirstMissing | Adaptors/Memory/src/ResultTable.cs:103-112 | A failing call stops at the first entry naming an unknown result: the failure names it, and the session is what the entries before it alone give |
| ResultModel.DependenciesAppendOnly | Adaptors/Memory/src/ResultTable.cs:103-112 | Even on failure, each result keeps its old dependents as a prefix and its other fields |
| ResultModel.SetOwners | Adaptors/Memory/src/ResultTable.cs:191-205 | Keys and every field other than the owner are unchanged; a failure names a result absent from the session |
| ResultModel.SetOwnersFailsAtFirstMissing | Adaptors/Memory/src/ResultTable.cs:191-205 | A failing call stops at the first request naming an unknown result: the failure names it, and the session is what the requests before it alone give |
| ResultModel.OwnersSet | Adaptors/Memory/src/ResultTable.cs:191-205 | Succeeds iff every named result exists; then each result is owned by the last task named for it, and the others are unchanged |
| ResultModel.UpdatedSession | Adaptors/Memory/src/ResultTable.cs:234-244 | The bulk update on one session: the selected results get the update list |
| ResultModel.UpdatedWhere | Adaptors/Memory/src/ResultTable.cs:231-245 | The bulk update on the whole store, session by session |
| ResultModel.UpdatedWhereKeepsWellKeyed | Adaptors/Memory/src/ResultTable.cs:239-243 | A bulk update keeps every result under its own session and result id |
| ResultModel.SelectedIff | Adaptors/Memory/src/ResultTable.cs:234-236 | In a well-keyed store, a result is selected iff it is stored under its own keys and the filter accepts it |
| ResultModel.InsertInOrder | Adaptors/Memory/src/ResultTable.cs:173-175 | Inserting into an ordered sequence keeps it ordered and adds exactly the one element |
| ResultModel.HeadBeforeInsertion | Adaptors/Memory/src/ResultTable.cs:173-175 | A head that the inserted element does not precede precedes every element of the insertion result |
| ResultModel.SortBy | Adaptors/Memory/src/ResultTable.cs:173-175 | The ordering is in key order, ascending or descending, and is a permutation of its input |
| ResultModel.Filter | Adaptors/Memory/src/ResultTable.cs:169-171 | Keeps each element the filter accepts as often as it occurs and drops the others |
| ResultModel.Page | Adaptors/Memory/src/ResultTable.cs:177-178 | The page is the slice starting at page*pageSize (clamped to the sequence), of length min(pageSize, what remains); a non-positive size gives nothing |
| ResultModel.NoDuplicatesCardinality | Adaptors/Memory/src/ResultTable.cs:177-178 | A sequence without duplicates has as many elements as its set, so the count equals the number of selected results |
| ResultModel.DependencyThenOwnershipScenario | Adaptors/Memory/src/ResultTable.cs:93-115 | Registering T2 on r1 (owned by T1), then moving T1 to T3, gives dependents [T2] and owner T3 |
| MemoryResultTable.ResultTable.constructor | Adaptors/Memory/src/ResultTable.cs:42-47 | Wraps the given store, not yet initialized |
| MemoryResultTable.ResultTable.Create | Adaptors/Memory/src/ResultTable.cs:75-90 | New store and outcome are those of CreateAll: insert in order, KeyAlreadyExists at the first taken key, keeping earlier inserts |
| MemoryResultTable.ResultTable.ReassignPass | Adaptors/Memory/src/ResultTable.cs:57-68 | One snapshot pass replaces each result owned by the old task with a copy owned by the new one |
| MemoryResultTable.ResultTable.ChangeResultOwnership | Adaptors/Memory/src/ResultTable.cs:50-72 | KeyNotFound for an unknown session when there is a request, else the session becomes ReassignAll of it; other sessions unchanged |
| MemoryResultTable.ResultTable.AddTaskDependencies | Adaptors/Memory/src/ResultTable.cs:93-115 | SessionNotFound for an unknown session, else the session and outcome are those of AddDependencies (so ResultNotFound names the first unknown result and the earlier appends stay); other sessions unchanged |
| MemoryResultTable.ResultTable.DeleteResult | Adaptors/Memory/src/ResultTable.cs:118-136 | SessionNotFound or ResultNotFound with no change, else removes exactly that key |
| MemoryResultTable.ResultTable.DeleteResults | Adaptors/Memory/src/ResultTable.cs:139-150 | SessionNotFound with no change, else the session maps to an empty map and stays known |
| MemoryResultTable.ResultTable.SetTaskOwnership | Adaptors/Memory/src/ResultTable.cs:181-208 | SessionNotFound for an unknown session, else the session and outcome are those of SetOwners (so ResultNotFound names the first unknown result and the earlier requests stay applied) |
| MemoryResultTable.ResultTable.UpdateOneResult | Adaptors/Memory/src/ResultTable.cs:251-271 | SessionNotFound or ResultNotFound with no change, else applies the updates and returns the result as it was before |
| MemoryResultTable.ResultTable.UpdateSessionWhere | Adaptors/Memory/src/ResultTable.cs:234-244 | Updates the session's selected results and counts exactly those |
| MemoryResultTable.ResultTable.UpdateManyResults | Adaptors/Memory/src/ResultTable.cs:227-248 | Every selected result gets the updates, others unchanged; the count is the number of selected results |
| MemoryResultTable.ResultTable.Snapshot | Adaptors/Memory/src/ResultTable.cs:169 | Flattens the store: every stored result exactly once |
| MemoryResultTable.ResultTable.ListResults | Adaptors/Memory/src/ResultTable.cs:162-179 | totalCount is the number of selected results; items is the requested page of an ordered, duplicate-free listing of them, at most pageSize long |
| MemoryResultTable.ResultTable.Init | Adaptors/Memory/src/ResultTable.cs:211-215 | Marks the table initialized, store unchanged |
| MemoryResultTable.ResultTable.Check | Adaptors/Memory/src/ResultTable.cs:221-224 | Healthy iff initialized |
| TaskQueue.TaskQueueBase.constructor | Common/src/Pollster/TaskQueueBase.cs:47 | A new queue holds no exception |
| TaskQueue.TaskQueueBase.AddException | Common/src/Pollster/TaskQueueBase.cs:53-54 | Appends the exception behind all recorded ones |
| TaskQueue.TaskQueueBase.RemoveException | Common/src/Pollster/TaskQueueBase.cs:63-72 | Returns true with the oldest exception and removes it iff the queue is non-empty; otherwise false and no change |
| TaskQueue.RunCalls | Common/src/Pollster/TaskQueueBase.cs:47-72 | Performing any sequence of AddException and RemoveException calls leaves the queue and returns the removed exceptions exactly as Replay says |
| TaskQueue.RemovedInInsertionOrder | Common/src/Pollster/TaskQueueBase.cs:47-72 | Over any interleaving of calls, the removed exceptions followed by the remaining ones are exactly the initial ones followed by the added ones (FIFO, none lost or duplicated) |
| RunningTaskProcessing.Raised | Common/src/Pollster/RunningTaskProcessor.cs:58-81 | An iteration raises an exception iff it does not deliver, execute and hand off a handler; a read failure is the one raised; otherwise, unless disposing the handler throws, the execute or hand-off failure is |
| RunningTaskProcessing.BodyEffect | Common/src/Pollster/RunningTaskProcessor.cs:51-81 | The loop body on values: drained exceptions then the raised one are appended to the running queue, and a delivered handler is handed off or released |
| RunningTaskProcessing.IterationEffect | Common/src/Pollster/RunningTaskProcessor.cs:49-81 | One iteration on values: the post-processing stage records its failures, then the loop body runs |
| RunningTaskProcessing.LoopEffect | Common/src/Pollster/RunningTaskProcessor.cs:49-81 | The loop on values: every scripted iteration in turn |
| RunningTaskProcessing.IterationPlacesHandler | Common/src/Pollster/RunningTaskProcessor.cs:49-81 | One iteration leaves the post-processing queue empty, loses nothing already reported, and places a handler (handed off or released) exactly when one is delivered |
| RunningTaskProcessing.LoopOnlyAppends | Common/src/Pollster/RunningTaskProcessor.cs:49-81 | The loop only appends: the running queue, the handed-off and the released handlers each extend what they held |
| RunningTaskProcessing.RecordFailures | Common/src/Pollster/TaskQueueBase.cs:53-54 | The post-processing stage's failures are appended, in order, to its exception queue |
| RunningTaskProcessing.HandOffAndRelease | Common/src/Pollster/RunningTaskProcessor.cs:60-73 | A handler reaches post-processing iff its execution and hand-off completed, and is released by the guard iff one of them threw |
| RunningTaskProcessing.EachHandlerOnce | Common/src/Pollster/RunningTaskProcessor.cs:58-73 | Every delivered handler is either handed off or released, never both, never neither |
| RunningTaskProcessing.FailuresAllReported | Common/src/Pollster/RunningTaskProcessor.cs:49-81 | No failure ends the loop or is lost: every failure the post-processing stage records before an iteration is moved by that iteration, so after the last one the post-processing queue is empty; the running queue receives, in order, every drained and every raised exception |
| RunningTaskProcessing.LoopComposes | Common/src/Pollster/RunningTaskProcessor.cs:49-82 | Iterations are independent: running two scripts back to back equals running their concatenation |
| RunningTaskProcessing.RunningTaskProcessor.DrainPostProcessingExceptions | Common/src/Pollster/RunningTaskProcessor.cs:53-56 | Moves all pending post-processing exceptions, oldest first, behind the running queue's, leaving the post-processing queue empty |
| RunningTaskProcessing.RunningTaskProcessor.RunIteration | Common/src/Pollster/RunningTaskProcessor.cs:51-81 | One pass of the loop body has the effect BodyEffect: drain, then hand off or release the handler, then record the failure, a disposal failure replacing the one in flight |
| RunningTaskProcessing.RunningTaskProcessor.ExecuteAsync | Common/src/Pollster/RunningTaskProcessor.cs:46-85 | The loop has the effect LoopEffect: before each pass the post-processing stage records its failures, and every scripted iteration runs whatever earlier ones raised |
| RunningTaskProcessing.RunningTaskProcessor.constructor | Common/src/Pollster/RunningTaskProcessor.cs:37-44 | Keeps the two distinct queues |
| CreateLargeTask.Next | Common/tests/StateMachines/ProcessReplyCreateLargeTaskStateMachineTest.cs:37-165 | The transition table the tests exercise: the successor state, or none for an illegal event |
| CreateLargeTask.TableShape | Common/tests/StateMachines/ProcessReplyCreateLargeTaskStateMachineTest.cs:37-80 | No transition returns to the initial state, InitRequest is legal only initially, and DataCompleted is entered only from the chunk state |
| CreateLargeTask.Run | Common/tests/StateMachines/ProcessReplyCreateLargeTaskStateMachineTest.cs:37-68 | A rejection names an event illegal in the state reached by the events before it |
| CreateLargeTask.RunStep | Common/tests/StateMachines/ProcessReplyCreateLargeTaskStateMachineTest.cs:82-96 | An accepted sequence is an accepted first event followed by an accepted rest, and conversely |
| CreateLargeTask.ChunksThenComplete | Common/tests/StateMachines/ProcessReplyCreateLargeTaskStateMachineTest.cs:85-90 | Further chunks, then CompleteData, take the chunk state to DataCompleted |
| CreateLargeTask.PayloadThen | Common/tests/StateMachines/ProcessReplyCreateLargeTaskStateMachineTest.cs:115-123 | A header, at least one chunk and CompleteData take RequestInitialized or DataCompleted to DataCompleted |
| CreateLargeTask.PayloadsThenComplete | Common/tests/StateMachines/ProcessReplyCreateLargeTaskStateMachineTest.cs:112-129 | Any number of payloads, then CompleteRequest, end in InitTaskRequestLast |
| CreateLargeTask.RequestAccepted | Common/tests/StateMachines/ProcessReplyCreateLargeTaskStateMachineTest.cs:82-129 | Every well-formed request (one or more header/chunks/complete-data cycles) ends in InitTaskRequestLast |
| CreateLargeTask.ParseAfterChunk | Common/tests/StateMachines/ProcessReplyCreateLargeTaskStateMachineTest.cs:70-80 | From the chunk state, only more chunks, CompleteData, payloads and CompleteRequest reach the end |
| CreateLargeTask.ParseAfterCompletedData | Common/tests/StateMachines/ProcessReplyCreateLargeTaskStateMachineTest.cs:112-129 | From DataCompleted, only payloads followed by CompleteRequest reach the end |
| CreateLargeTask.ParseAfterInit | Common/tests/StateMachines/ProcessReplyCreateLargeTaskStateMachineTest.cs:82-129 | After InitRequest, only one or more payloads followed by CompleteRequest reach the end |
| CreateLargeTask.AcceptedIsRequest | Common/tests/StateMachines/ProcessReplyCreateLargeTaskStateMachineTest.cs:37-129 | Every event sequence that reaches InitTaskRequestLast is a well-formed request |
| CreateLargeTask.AcceptedIffRequest | Common/tests/StateMachines/ProcessReplyCreateLargeTaskStateMachineTest.cs:37-129 | A sequence reaches InitTaskRequestLast iff it is a well-formed request |
| CreateLargeTask.RunAppend | Common/tests/StateMachines/ProcessReplyCreateLargeTaskStateMachineTest.cs:131-165 | Running a concatenation runs the parts in turn; a rejection in the second part is reported at its position in the whole |
| CreateLargeTask.SingleUse | Common/tests/StateMachines/ProcessReplyCreateLargeTaskStateMachineTest.cs:131-165 | No event is accepted in InitTaskRequestLast |
| CreateLargeTask.Completion | Common/tests/StateMachines/ProcessReplyCreateLargeTaskStateMachineTest.cs:82-129 | From every state some continuation reaches InitTaskRequestLast |
| CreateLargeTask.PrefixOfAccepted | Common/tests/StateMachines/ProcessReplyCreateLargeTaskStateMachineTest.cs:82-129 | Every prefix of an accepted sequence is accepted |
| CreateLargeTask.RequestPrefixAccepted | Common/tests/StateMachines/ProcessReplyCreateLargeTaskStateMachineTest.cs:82-129 | No prefix of a well-formed request is rejected |
| CreateLargeTask.ReachedExtendsToRequest | Common/tests/StateMachines/ProcessReplyCreateLargeTaskStateMachineTest.cs:37-129 | Every accepted sequence is the beginning of some well-formed request: no dead prefix |
| CreateLargeTask.RejectedAtFirstOutOfGrammar | Common/tests/StateMachines/ProcessReplyCreateLargeTaskStateMachineTest.cs:37-80 | A rejection happens exactly at the first event after which the sequence no longer begins any well-formed request |
| CreateLargeTask.FirstEventMustInitialize | Common/tests/StateMachines/ProcessReplyCreateLargeTaskStateMachineTest.cs:37-47 | Any first event other than InitRequest is rejected in the initial state |
| CreateLargeTask.InitRequestTwiceRejected | Common/tests/StateMachines/ProcessReplyCreateLargeTaskStateMachineTest.cs:49-54 | A second InitRequest is rejected |
| CreateLargeTask.CompleteRequestNeedsCompleteData | Common/tests/StateMachines/ProcessReplyCreateLargeTaskStateMachineTest.cs:70-80 | CompleteRequest right after data chunks is rejected |
| CreateLargeTask.CompletedRequestNotReusable | Common/tests/StateMachines/ProcessReplyCreateLargeTaskStateMachineTest.cs:56-68 | After a complete request, the next event is rejected |
| CreateLargeTask.StateMachine.constructor | Common/tests/StateMachines/ProcessReplyCreateLargeTaskStateMachineTest.cs:31-33 | A new machine is in the initial state |
| CreateLargeTask.StateMachine.Fire | Common/tests/StateMachines/ProcessReplyCreateLargeTaskStateMachineTest.cs:37-165 | A legal event moves to its successor state; an illegal one fails with InvalidOperation and leaves the state |
| CreateLargeTask.StateMachine.InitRequest | Common/tests/StateMachines/ProcessReplyCreateLargeTaskStateMachineTest.cs:49-54 | Accepted only in the initial state |
| CreateLargeTask.StateMachine.AddHeader | Common/tests/StateMachines/ProcessReplyCreateLargeTaskStateMachineTest.cs:149-165 | Accepted only after InitRequest or CompleteData |
| CreateLargeTask.StateMachine.AddDataChunk | Common/tests/StateMachines/ProcessReplyCreateLargeTaskStateMachineTest.cs:37-39 | Accepted only after a header or another chunk |
| CreateLargeTask.StateMachine.CompleteData | Common/tests/StateMachines/ProcessReplyCreateLargeTaskStateMachineTest.cs:41-43 | Accepted only after a data chunk |
| CreateLargeTask.StateMachine.CompleteRequest | Common/tests/StateMachines/ProcessReplyCreateLargeTaskStateMachineTest.cs:56-80 | Accepted only after CompleteData |
| CreateLargeTask.StateMachine.GetState | Common/tests/StateMachines/ProcessReplyCreateLargeTaskStateMachineTest.cs:94-95 | Returns the current state |

## Left out

- The rendezvous channel that task queues extend, with its single-producer/single-consumer hand-off, is not modelled. `ReadAsync` and `WriteAsync` appear only through their outcomes in each `Iteration`.
- Asynchrony, cancellation tokens and concurrent access to the concurrent dictionaries are not modelled. Every operation runs to completion alone.
  - Because of this, `TryUpdate`'s compare-and-swap always succeeds in `SetTaskOwnership`, and it is modelled as a plain replacement.
  - The result-not-found factory of `UpdateManyResults` can never fire.
- The stop signal of the processor loop is not modelled as a token. The loop runs over a finite script of iterations, and the stop is observed once the script is exhausted.
- Logging, the log property scopes and the health-check payloads are not modelled. `Check` keeps only healthy versus unhealthy.
- Error messages are not modelled. Only the error kind and its key are kept.
- The source of `ProcessReplyCreateLargeTaskStateMachine` is not part of this model. Its behaviour is taken from its unit tests; `Next` lists the transitions the model assumes. In detail:
  - Only the terminal state name `InitTaskRequestLast` comes from the code. The other state names are descriptive.
  - `GenerateGraph` (Graphviz text) is not modelled.
- TaskLifecycle.TaskTable.ReadTask: failing with TaskNotFound on an unknown id is the storage backend's behaviour, which is not part of this model; the model assumes it.
- RunningTaskProcessing.FailuresAllReported: the post-processing stage runs concurrently with the loop. The model lets it record failures only between iterations, before the drain, so "the post-processing queue ends empty" covers exactly those failures; one recorded after the last drain stays queued.
- `Deferrer` is not part of this model. Its disposal is modelled as releasing the handler, and an exception it throws replaces the one in flight, as `await using` does.
- The storage backend behind the task table is not part of this model. `UpdateOneTask` is modelled, like the result table's `UpdateOneResult`, as returning the record as it was before the update and failing with TaskNotFound on an unknown id.
- The LINQ expressions and the selector/value update lists are not modelled as such:
  - Filters become Dafny functions.
  - The ordering key becomes an integer-valued function.
  - Update lists become sequences of tagged field assignments, which never touch the ids.
- The `Result(data, updates)` constructor is not part of this model.
- `GetResults` (streaming with a converter) is not modelled.
- Dates and durations are opaque integers. `DateTime.UtcNow` becomes the `now` parameter.
- MemoryResultTable.ResultTable.ListResults: `page * pageSize` is computed on unbounded integers. The 32-bit overflow of the source's `int` multiplication is not modelled.
- MemoryResultTable.ResultTable.ListResults: the order among results with equal keys is left open. The source's sort is stable over the dictionaries' enumeration order, which is itself unspecified.
- MemoryResultTable.ResultTable.AddTaskDependencies: the source appends to the stored result's `DependentTasks` list in place. The model replaces the stored result by one with the longer list. Aliasing of that list between copies made by `with` is not modelled.
- Dictionary enumeration order is modelled as follows:
  - `IDictionary` arguments become sequences of pairs in enumeration order.
  - Enumeration of the concurrent dictionaries is an arbitrary choice of the next key.
- MemoryResultTable.ResultTable.constructor: the store handed to the table must already keep every result under its own session and result id. This is the invariant every operation maintains.
- TaskLifecycle.TaskTable.constructor: likewise, the task map must keep every task under its own id.
- The dependency-injection wiring, option classes and the other adaptors of the repository are not part of this model.
