# Temporal message-handling samples as state machines

This project models the workflow logic of a collection of Temporal Python samples. Each
sample is a long-lived workflow whose signal, update and query handlers change a small
state record. The model treats every handler invocation as one atomic transition
`Step(reply, post)` on an immutable state record:

- a `workflow.wait_condition(p)` that is not yet true becomes the reply `Blocked`, with the
  state unchanged;
- a handler that has changed state and then suspends on something outside the model
  (an activity, an update that never returns) replies `Pending`;
- a failing update validator becomes `Rejected(reason)`, with the state unchanged;
- an `ApplicationError` raised by a handler becomes `Failed(error)`;
- any other exception (an `assert`, a `ValueError`, an `AttributeError`) becomes
  `Stuck(error)`: it fails the workflow task rather than the update, and `post` is what
  the handler had done when it raised;
- a normal return becomes `Returned(value)`.

Activity results are parameters. The one exception is `find_bad_nodes`, which is a pure
filter and is modelled as a function. Python dictionaries are association lists
(`PyDict`), so "the first n free nodes" follows insertion order as it does in Python.

Modules:

- `Common`, `Seqs`, `PyDict` and `Decimal` hold the shared vocabulary. `Decimal` covers
  `str(k)` for node names and `int(n)` in the health-check activity.
- `BadNodes` models `find_bad_nodes`.
- `NodeTable` holds the 25-node table and the counting lemmas about it.
- `HistoryPolicy` models `should_continue_as_new`.
- `ClusterManager` models the current cluster manager. `LegacyClusterManager` models the
  older one, which counts its peak and its assigned nodes differently.
- `ReorderQueue` is the reordering buffer that delivers messages in sequence order.
- `SerializedTasks` is the FIFO, one-at-a-time update processor.
- `Greeting` covers the introductory greeting workflow and its docs variant.
  `AsyncGreeting` covers the variant that looks greetings up through an activity.
- `HelloWorld` covers the basic update sample. `UpdateDedup` covers update-ID
  deduplication across continue-as-new, including the window before `run` has begun.
- `WashDryUpdates`, `WashDryFlags` and `WashDryPipeline` cover the three
  wash-before-dry ordering samples.
- `RunningCount` covers the `running_count`/`state` pairing. `TwoUpdates` covers the two
  chained updates.

Each workflow has an `Event` type, an `Apply` function for one handler event and an
`ApplyAll` function for a trace of events. Its lemmas hold for every trace of events.

## Notes on the code

A few behaviours of the code are easy to miss and are modelled as written:

- `my_update` in `dan/update_deduplication.py` raises `ApplicationError`
  "duplicate update ID: U" on a repeated update ID. It does not return the earlier
  result. `UpdateDedup.MyUpdate` models the raise.
- In the same file `__init__` starts every run with an empty set (line 13). Only `run`'s
  first line adopts the set carried over by continue-as-new (line 17). An update handled
  before that line, in the run's first workflow task, checks against the empty set. Its ID
  is then overwritten. So deduplication holds only for updates handled after `run` has
  begun:
  - `UpdateDedup.EarlyUpdateAcceptsDuplicate` shows such an early update accepting an ID
    that the previous run had already returned.
  - `UpdateDedup.EarlyUpdateForgotten` shows the same run accepting one ID twice.
- In `dan/docs_update_basic.py` the "<fail-workflow>" update makes `run` raise, so a
  handler can fail the whole workflow. `HelloWorld.Run` models this as `Failed`.
- The cluster managers take `nodes_lock` around every node-table change. This is
  modelled by making each locked section one atomic step and by passing "the lock is
  held" to `should_continue_as_new` as a parameter.
- Two tests are stale:
  - `tests/update_and_signal_handlers/atomic_message_handlers_test.py:24-26` compares the
    whole result record to 12.
  - `tests/updates_and_signals/atomic_message_handlers_test.py:34-37` reads a field name
    the result record does not have.

  The intended scenario, a peak of 12 nodes and none assigned at the end, is proved for
  both versions on the lifecycle trace with no health check in between
  (`ClusterManager.LifecyclePeak`, `LegacyClusterManager.LifecyclePeak`).

## Model

| member | source | states |
|---|---|---|
| Decimal.ParseInt | updates_and_signals/atomic_message_handlers/activities.py:40 | `int(n)` succeeds exactly on an optional sign followed by at least one ASCII digit |
| Decimal.ParseIntToText | updates_and_signals/atomic_message_handlers/workflow.py:74 | reading back the decimal text of any integer gives the integer (`int(str(k)) == k`) |
| Decimal.DigitsInjective | updates_and_signals/atomic_message_handlers/workflow.py:74 | distinct node numbers get distinct names, so the 25 keys are distinct |
| Decimal.DecimalRange | updates_and_signals/atomic_message_handlers/workflow.py:74 | `[str(k) for k in range(lo, hi)]` has hi-lo entries, entry i being the decimal text of lo+i |
| PyDict.Put | updates_and_signals/atomic_message_handlers/workflow.py:126-127 | dict assignment: the key now maps to the value, every other key keeps its value, an existing key keeps its position and a new key is appended |
| BadNodes.FindBadNodes | updates_and_signals/atomic_message_handlers/activities.py:37-45 | the result is the input's names that parse to a multiple of 5, in input order and with their repetitions (so also an order-preserving subsequence with exactly those members); the call fails exactly when some name does not parse |
| BadNodes.FindBadNodesEmpty | updates_and_signals/atomic_message_handlers/activities.py:40 | no nodes to check gives no bad nodes |
| BadNodes.FindBadNodesIdempotent | updates_and_signals/safe_message_handlers/activities.py:37-45 | filtering the output again returns the same list |
| BadNodes.FindBadNodesOnRange | update_and_signal_handlers/atomic_message_handlers.py:35-43 | over the names of lo..hi-1 the bad nodes are the multiples of 5, in ascending order |
| BadNodes.FindBadNodesOnClusterNames | updates_and_signals/atomic_message_handlers/activities.py:40 | over the cluster's names "0".."24" the bad nodes are exactly "0","5","10","15","20" |
| NodeTable.Select | updates_and_signals/atomic_message_handlers/workflow.py:157-161 | a node listing (free, assigned, non-free or held by a job) is a subsequence of the keys in key order and contains exactly the keys matching the filter |
| NodeTable.FreshNodes | updates_and_signals/atomic_message_handlers/workflow.py:74 | the fresh table has exactly the keys "0".."24" in order, all free |
| NodeTable.FreshNodesCounts | updates_and_signals/atomic_message_handlers/workflow.py:74 | a fresh table has 25 free nodes and none assigned or held by any job |
| NodeTable.FirstFree | updates_and_signals/atomic_message_handlers/workflow.py:108 | `unassigned[:n]` is a prefix of the free nodes, has n entries when 0 <= n <= the free count, and every entry is a free key |
| NodeTable.FirstFreeDistinct | updates_and_signals/atomic_message_handlers/workflow.py:108 | the chosen nodes are pairwise distinct |
| NodeTable.AssignCounts | updates_and_signals/atomic_message_handlers/workflow.py:126-127 | giving n distinct free nodes to a job moves exactly n from the free count to the assigned count |
| NodeTable.ReleaseCounts | updates_and_signals/atomic_message_handlers/workflow.py:154-155 | freeing a job's nodes moves exactly that many from the assigned count to the free count, and the job then holds none |
| NodeTable.MarkBadCounts | updates_and_signals/atomic_message_handlers/workflow.py:175-176 | marking k assigned nodes "BAD!" lowers the assigned count by k and leaves the free count and the non-free count unchanged |
| NodeTable.NodeNamesParse | updates_and_signals/atomic_message_handlers/workflow.py:74 | every node name in the cluster's table parses as an integer |
| NodeTable.TaskNameFacts | updates_and_signals/atomic_message_handlers/starter.py:12-32 | the lifecycle's job names "task-i" are never "BAD!" and task-i is among the first c names exactly when i < c |
| HistoryPolicy.ShouldContinueAsNew | updates_and_signals/atomic_message_handlers/workflow.py:187-199 | never while the lock is held; always when unlocked and suggested; without a suggestion, exactly when unlocked and the history limit is set, nonzero and exceeded |
| ClusterManager.StartCluster | updates_and_signals/atomic_message_handlers/workflow.py:71-75 | the cluster is started with exactly the 25 keys, all free, whatever was allocated before; the shutdown flag and the peak are kept |
| ClusterManager.ShutdownCluster | updates_and_signals/atomic_message_handlers/workflow.py:77-81 | waits for start, then sets the shutdown flag and changes nothing else |
| ClusterManager.AllocateNNodesToJob | updates_and_signals/atomic_message_handlers/workflow.py:86-127 | waits for start; fails after shutdown and when fewer than n nodes are free (with the exact message), changing nothing; otherwise gives the first n free nodes to the job and changes no other node; the peak never falls and is at least the assigned count afterwards |
| ClusterManager.DeleteJob | updates_and_signals/atomic_message_handlers/workflow.py:131-155 | waits for start; fails after shutdown, changing nothing; otherwise frees exactly the nodes held by the job and changes no other node |
| ClusterManager.PerformHealthChecks | updates_and_signals/atomic_message_handlers/workflow.py:163-176 | fails exactly when an assigned name does not parse; otherwise marks exactly the assigned nodes that are multiples of 5 as "BAD!" and changes nothing else |
| ClusterManager.HealthCheckCounts | updates_and_signals/atomic_message_handlers/workflow.py:163-176 | a health check lowers the assigned count by the number of bad nodes it reports |
| ClusterManager.BadNodeSticks | updates_and_signals/atomic_message_handlers/workflow.py:141-161 | a "BAD!" node is neither free nor assigned, no allocation changes it, and only deleting a job literally named "BAD!" frees it |
| ClusterManager.Init | updates_and_signals/atomic_message_handlers/workflow.py:180-185 | a state passed in is adopted verbatim; the test flag sets history limit 120 and a 1-second interval, otherwise the defaults stay |
| ClusterManager.AfterWait | updates_and_signals/atomic_message_handlers/workflow.py:201-230 | the run returns exactly after shutdown, with the peak and the current assigned count; it continues as new exactly when not shut down and `should_continue_as_new` holds (never while locked, always when unlocked and suggested), carrying the whole state |
| ClusterManager.ContinueAsNewHandOff | updates_and_signals/atomic_message_handlers/workflow.py:221-226 | from any state the run has reached, with the settings `init` chose, the next run's `init` reproduces the workflow that continued as new |
| ClusterManager.MaxNeverDecreases | updates_and_signals/atomic_message_handlers/workflow.py:112-115 | over any trace of handler events the peak never falls |
| ClusterManager.InvPreserved | updates_and_signals/atomic_message_handlers/workflow.py:71-176 | every handler keeps the table keyed by "0".."24" once started and the peak within 0..25 |
| ClusterManager.InvReachable | updates_and_signals/atomic_message_handlers/workflow.py:71-176 | that invariant holds after any trace of handler events |
| ClusterManager.HealthCheckNeverFails | updates_and_signals/atomic_message_handlers/workflow.py:163-176 | in every reachable state the health-check activity succeeds |
| ClusterManager.AllocateCounts | updates_and_signals/atomic_message_handlers/workflow.py:99-127 | a successful allocation of n nodes moves n from free to assigned |
| ClusterManager.DeleteCounts | updates_and_signals/atomic_message_handlers/workflow.py:140-155 | deleting a job moves its nodes from assigned back to free |
| ClusterManager.AllocateTasksCounts | updates_and_signals/atomic_message_handlers/starter.py:12-20 | after allocating 2 nodes to each of c jobs, 2c are assigned, 25-2c are free and the peak is 2c |
| ClusterManager.DeleteTasksCounts | updates_and_signals/atomic_message_handlers/starter.py:25-30 | after then deleting the first c of the six jobs, 12-2c are assigned and the peak stays 12 |
| ClusterManager.LifecyclePeak | tests/updates_and_signals/atomic_message_handlers_test.py:34-37 | six allocations of 2, six deletions and a shutdown end the run with peak 12 and none assigned |
| LegacyClusterManager.StartCluster | update_and_signal_handlers/atomic_message_handlers.py:71-75 | the cluster is started with a table of exactly the 25 keys, all free; the other fields are kept |
| LegacyClusterManager.ShutdownCluster | update_and_signal_handlers/atomic_message_handlers.py:77-81 | waits for start, then sets the shutdown flag and changes nothing else |
| LegacyClusterManager.AllocateNNodesToJob | update_and_signal_handlers/atomic_message_handlers.py:83-119 | waits for start; after shutdown the assert fails the workflow task; too few free nodes raise the ValueError with the exact message; otherwise gives the first n free nodes to the job, and the peak becomes the maximum of itself and the non-free count, "BAD!" nodes included |
| LegacyClusterManager.DeleteJob | update_and_signal_handlers/atomic_message_handlers.py:121-143 | waits for start; after shutdown the assert fails the workflow task; otherwise frees exactly the job's nodes and returns "Done" |
| LegacyClusterManager.PerformHealthChecks | update_and_signal_handlers/atomic_message_handlers.py:145-159 | records the assigned count taken before marking, then marks exactly the assigned multiples of 5 "BAD!"; an unparsable name makes the activity retry for ever |
| LegacyClusterManager.HealthCheckCountIsStale | update_and_signal_handlers/atomic_message_handlers.py:145-159 | the recorded count exceeds the assigned count after the check by exactly the number of nodes marked bad |
| LegacyClusterManager.Init | update_and_signal_handlers/atomic_message_handlers.py:163-166 | a state passed in is adopted verbatim and the history limit is always replaced |
| LegacyClusterManager.AfterWait | update_and_signal_handlers/atomic_message_handlers.py:180-206 | the loop ends exactly after shutdown, and the run returns the peak and the recorded assigned count |
| LegacyClusterManager.AfterHealthCheck | update_and_signal_handlers/atomic_message_handlers.py:168-202 | after a health check the run continues as new exactly when the policy says so with the lock free, always when suggested, passing state and limit |
| LegacyClusterManager.ContinueAsNewHandOff | update_and_signal_handlers/atomic_message_handlers.py:163-166 | the next run's `init_from_previous_run` reproduces the workflow that continued as new |
| LegacyClusterManager.InvPreserved | update_and_signal_handlers/atomic_message_handlers.py:71-159 | every handler keeps: started exactly when a table exists, the table keyed by "0".."24", the peak and the recorded count within 0..25 |
| LegacyClusterManager.InvReachable | update_and_signal_handlers/atomic_message_handlers.py:71-159 | that invariant holds after any trace of handler events |
| LegacyClusterManager.ReachableNeverStuckOnTable | update_and_signal_handlers/atomic_message_handlers.py:121-159 | in every reachable started state the health check completes, and a delete fails only because of shutdown |
| LegacyClusterManager.AllocateTasksCounts | update_and_signal_handlers/atomic_message_handlers.py:209-217 | after allocating 2 nodes to each of c jobs, 2c are non-free and the peak is 2c |
| LegacyClusterManager.DeleteTasksCounts | update_and_signal_handlers/atomic_message_handlers.py:222-227 | after then deleting the first c jobs, 12-2c nodes are non-free and the peak stays 12 |
| LegacyClusterManager.LifecyclePeak | tests/update_and_signal_handlers/atomic_message_handlers_test.py:24-26 | the lifecycle, with no health check in between, ends the run with peak 12 and a recorded count of 0 |
| ReorderQueue.Add | signals_and_updates/order_handling_of_n_messages.py:18-23 | `add` fills an empty slot with the payload; a slot already filled, consumed or not, keeps its first payload; the head and every other slot are unchanged |
| ReorderQueue.Next | signals_and_updates/order_handling_of_n_messages.py:25-29 | `next` waits exactly while the head slot is empty; otherwise it returns that slot's payload and advances the head by one |
| ReorderQueue.HeadAndSlotsMonotone | signals_and_updates/order_handling_of_n_messages.py:18-29 | over any trace the head never decreases and a filled slot never changes |
| ReorderQueue.DeliverFirstWrite | signals_and_updates/order_handling_of_n_messages.py:20-23 | after a batch of messages a slot holds the first payload sent for it, or the one it already had |
| ReorderQueue.DrainInOrder | signals_and_updates/order_handling_of_n_messages.py:25-29 | with slots head..head+n-1 filled, n calls to `next` return them in position order and leave the head at head+n |
| ReorderQueue.AnyArrivalOrder | signals_and_updates/order_handling_of_n_messages.py:18-29 | whatever the arrival order, once positions 0..k-1 have arrived, k calls to `next` return their first-written payloads in order |
| ReorderQueue.ShuffledDelivery | signals_and_updates/order_handling_of_n_messages.py:50-56 | sending each item i at position i in any order that covers every position, the items come out exactly in their original order |
| ReorderQueue.ProcessMessage | signals_and_updates/order_handling_of_n_messages.py:45-47 | the signal records the payload at its sequence number unless that slot is taken, and never moves the head |
| ReorderQueue.RunStep | signals_and_updates/order_handling_of_n_messages.py:37-43 | the main loop waits on an empty head slot; otherwise it logs the head payload and advances, or continues as new after it when suggested |
| ReorderQueue.ContinueAsNewRestartsNumbering | signals_and_updates/order_handling_of_n_messages.py:42-43 | the next run starts its head at 0, so a message sent after the hand-off with the following sequence number is never delivered |
| SerializedTasks.StartDoTask | update/serialized_handling_of_n_messages_cretz.py:32-37 | `do_task` appends a fresh task with no result and queues its index at the back |
| SerializedTasks.FinishDoTask | update/serialized_handling_of_n_messages_cretz.py:38-42 | the update waits until its result is set; an empty result fails the assert; otherwise it returns that result; either way the task is marked returned |
| SerializedTasks.MainStep | update/serialized_handling_of_n_messages_cretz.py:25-48 | the loop head never blocks and continues as new exactly when suggested with an empty queue, otherwise goes on to wait for a task; the wait blocks exactly while the queue is empty and then takes `queue[0]`; processing stores the activity result and moves to waiting for the update, which returns to the loop head once the update has returned |
| SerializedTasks.InvInit | update/serialized_handling_of_n_messages_cretz.py:22-23 | the invariant holds for the initial state |
| SerializedTasks.InvPreserved | update/serialized_handling_of_n_messages_cretz.py:25-48 | every event keeps: popped followed by queued is 0..n-1, results only for popped tasks, every earlier task returned |
| SerializedTasks.InvReachable | update/serialized_handling_of_n_messages_cretz.py:25-48 | that invariant holds after any trace of events |
| SerializedTasks.FifoAndSerial | update/serialized_handling_of_n_messages_cretz.py:27-48 | tasks are popped in the order `do_task` queued them, and at most one task is in progress at a time |
| SerializedTasks.ReturnedResultCameFromActivity | update/serialized_handling_of_n_messages_cretz.py:38-40 | an update returns only for a task the main loop has already taken off the queue |
| Greeting.AllLanguagesComplete | message_passing/introduction/workflow.py:8-13 | the enum listing has every member once |
| Greeting.Init | message_passing/introduction/workflow.py:28-35 | starts unapproved, in English, with greetings for English then Chinese |
| Greeting.ValidateLanguage | message_passing/introduction/workflow.py:62-66 | accepts exactly the languages that have a greeting and names the others in the error |
| Greeting.SetLanguage | message_passing/introduction/workflow.py:56-66 | rejected exactly for languages without a greeting, state unchanged; otherwise returns the previous language and installs the new one |
| Greeting.SetLanguageUndo | message_passing/introduction/workflow.py:56-60 | setting the returned previous language back restores the earlier state |
| Greeting.Approve | message_passing/introduction/workflow.py:50-54 | records approval and the approver, changing neither language nor greetings |
| Greeting.GetLanguages | message_passing/introduction/workflow.py:42-48 | all five members with unsupported included; otherwise exactly the greeted languages, in key order here and in enum order in the docs variant |
| Greeting.GetLanguage | message_passing/introduction/workflow.py:68-70 | the query returns the current language (which validates whenever the state's language does) |
| Greeting.QueryOrderDiffers | dan/docs_message_passing.py:43-49 | initially the introduction sample lists English then Chinese and the docs sample Chinese then English |
| Greeting.Run | message_passing/introduction/workflow.py:37-40 | waits for approval, then returns the greeting for the current language (a missing one raises KeyError) |
| Greeting.LanguageAlwaysGreeted | message_passing/introduction/workflow.py:31-66 | no handler changes the greetings and the current language always keeps a greeting |
| Greeting.RunReturnsGreeting | message_passing/introduction/workflow.py:37-40 | in every reachable state `run` returns once approved: its greetings lookup never raises |
| AsyncGreeting.AllLanguagesComplete | dan/docs_message_passing_async.py:10-16 | the enum listing has every one of the six members, each once |
| AsyncGreeting.CallGreetingService | dan/docs_message_passing_async.py:19-30 | the greeting service knows every language |
| AsyncGreeting.Init | dan/docs_message_passing_async.py:45-53 | starts unapproved, in English, with the service's greetings for English and Chinese |
| AsyncGreeting.SetLanguage | dan/docs_message_passing_async.py:84-102 | a greeted language is switched to without a lookup; a failed lookup raises ApplicationError and changes nothing; a successful one stores the greeting and switches |
| AsyncGreeting.SetLanguageWithServiceSucceeds | dan/docs_message_passing_async.py:84-102 | with the real service the update always returns the previous language and the new language has a greeting |
| AsyncGreeting.Approve | dan/docs_message_passing_async.py:72-75 | records approval and the approver, changing neither language nor greetings |
| AsyncGreeting.GetLanguages | dan/docs_message_passing_async.py:65-70 | all six members, or exactly the greeted languages in enum order |
| AsyncGreeting.Run | dan/docs_message_passing_async.py:55-59 | waits for approval and for all handlers to finish, then returns the greeting for the current language |
| AsyncGreeting.ApplyGrows | dan/docs_message_passing_async.py:100-101 | one event, with each update taken as one step, keeps the current language greeted and never changes an existing greeting |
| AsyncGreeting.GreetingsOnlyGrow | dan/docs_message_passing_async.py:48-52 | over any trace of one-step updates greetings only grow and the current language stays greeted |
| AsyncGreeting.RunReturnsGreeting | dan/docs_message_passing_async.py:55-59 | in every reachable state `run` returns once approved and all handlers have finished: its lookup never raises |
| HelloWorld.Validate | dan/docs_update_basic.py:55-63 | accepts exactly "world", "World", "<fail-update>" and "<fail-workflow>", rejecting the rest with "invalid entity: " |
| HelloWorld.Greeting | dan/docs_update_basic.py:69-70 | "Hello, E!" for the entity E, and "Hello, None!" before any is set |
| HelloWorld.SetGreeting | dan/docs_update_basic.py:41-53 | a rejected entity changes nothing; "<fail-update>" fails the update but keeps the entity; "<fail-workflow>" sets the exit to Fail and never returns; otherwise returns the new greeting |
| HelloWorld.Exit | dan/docs_update_basic.py:65-67 | sets the exit flag and keeps the entity |
| HelloWorld.Run | dan/docs_update_basic.py:34-39 | waits while the exit is not set, fails on Fail, and otherwise returns the greeting |
| HelloWorld.RunRepeatsLastGreeting | dan/docs_update_basic.py:52-53 | after an accepted ordinary update and `exit`, `run` returns the same greeting the update did |
| HelloWorld.FailWorkflowFailsRun | dan/docs_update_basic.py:48-51 | after "<fail-workflow>" the run fails, unless `exit` is signalled first |
| HelloWorld.OnlyAcceptedEntities | dan/docs_update_basic.py:41-63 | over any trace the entity is only ever an accepted value |
| HelloWorld.FailNeedsFailWorkflow | dan/docs_update_basic.py:36-38 | the run fails only if some update sent "<fail-workflow>" |
| UpdateDedup.Start | dan/update_deduplication.py:15-17 | a run adopts the set passed in, or starts empty |
| UpdateDedup.MyUpdate | dan/update_deduplication.py:26-32 | fails with "duplicate update ID" exactly for a seen ID, changing nothing; otherwise returns the ID and adds it |
| UpdateDedup.MainStep | dan/update_deduplication.py:18-23 | waits until continue-as-new is suggested, then hands over the whole set |
| UpdateDedup.Init | dan/update_deduplication.py:12-13 | every run's workflow object starts with no IDs |
| UpdateDedup.SetIsReturnedIds | dan/update_deduplication.py:12-32 | across any trace of updates, run starts and continue-as-new, the remembered set (the current set once `run` has begun, otherwise the set handed to the run) is the starting one plus exactly the IDs returned after `run` had begun; those are distinct and were not remembered before |
| UpdateDedup.DuplicateAcrossRuns | dan/update_deduplication.py:17-32 | an ID returned after `run` had begun is rejected by any later update handled after `run` has begun, in this run or a later one |
| UpdateDedup.EarlyUpdateAcceptsDuplicate | dan/update_deduplication.py:12-17 | an update handled before `run` has begun accepts an ID that was carried into the run |
| UpdateDedup.EarlyUpdateForgotten | dan/update_deduplication.py:12-32 | an ID returned before `run` has begun is dropped by line 17 and returned again in the same run |
| WashDryUpdates.Wash | update/order_handling_of_two_messages.py:37-40 | stores and returns the wash record, changing nothing else |
| WashDryUpdates.Dry | update/order_handling_of_two_messages.py:42-49 | waits until the wash is recorded, then returns a dry record with its item count and moisture 3 |
| WashDryUpdates.Run | update/order_handling_of_two_messages.py:29-35 | waits exactly until the dry results are set |
| WashDryUpdates.InvReachable | update/order_handling_of_two_messages.py:37-49 | in every reachable state dry results exist only after wash results, and their moisture is 3 |
| WashDryUpdates.DryBeforeWash | update/order_handling_of_two_messages.py:52-57 | a dry sent first waits; after a wash of 10 items it returns (10, 3) and the run ends |
| WashDryFlags.Wash | signals_and_updates/order_handling_of_two_messages.py:20-23 | always enabled and only sets the wash flag |
| WashDryFlags.Dry | signals_and_updates/order_handling_of_two_messages.py:25-29 | waits until the wash flag is set, then sets the dry flag |
| WashDryFlags.Run | signals_and_updates/order_handling_of_two_messages.py:16-18 | waits exactly until the dry flag is set |
| WashDryFlags.DryImpliesWash | signals_and_updates/order_handling_of_two_messages.py:20-29 | over any trace dry implies wash, and neither flag is reset |
| WashDryFlags.RunEndsAfterBoth | signals_and_updates/order_handling_of_two_messages.py:16-18 | `run` returns only after both a wash and a dry update |
| WashDryFlags.FlagsNeedEvents | signals_and_updates/order_handling_of_two_messages.py:12-29 | a flag becomes set only through its own update |
| WashDryPipeline.MainStep | signals_and_updates/order_handling_relative_to_main_workflow.py:19-30 | the main routine adds detergent, waits for the wash, removes non-dryables, waits for the dry and returns, one stage per step |
| WashDryPipeline.Wash | signals_and_updates/order_handling_relative_to_main_workflow.py:32-36 | waits for detergent, then sets the wash flag |
| WashDryPipeline.Dry | signals_and_updates/order_handling_relative_to_main_workflow.py:38-44 | waits for the wash and the non-dryables removal, then sets the dry flag |
| WashDryPipeline.InvReachable | signals_and_updates/order_handling_relative_to_main_workflow.py:13-44 | the flags are set in the order detergent, wash, non-dryables, dry, the stage matches them, and none is reset |
| WashDryPipeline.RunEndsAfterDry | signals_and_updates/order_handling_relative_to_main_workflow.py:19-30 | once the run has returned, all four flags are set |
| RunningCount.BeginRunOne | dan/issue_673.py:34-36 | entering `run_one` raises the count by one and sets "running" |
| RunningCount.StartSignal | dan/issue_673.py:24-26 | `start` begins one run |
| RunningCount.Resume | dan/issue_673.py:28-32 | `resume` while running returns at once; otherwise it begins one run |
| RunningCount.FinishRunOne | dan/issue_673.py:37-43 | a finished run lowers the count by one and sets "stopped" exactly when the count reaches 0 |
| RunningCount.InvPreserved | dan/issue_673.py:24-43 | every step keeps the count equal to the runs in flight and "running" exactly when it is positive |
| RunningCount.InvReachable | dan/issue_673.py:24-43 | that invariant holds after any trace of events |
| RunningCount.CounterFacts | dan/issue_673.py:28-43 | the count is never negative, `resume` while running starts nothing, and with no run in flight the state is "stopped" |
| TwoUpdates.Update1 | dan/two_updates.py:24-29 | waits until `update2` has run, then sets completion and returns "update1: complete" |
| TwoUpdates.Update2 | dan/two_updates.py:31-35 | allows `update1` to continue and returns "update2: complete" |
| TwoUpdates.RunStep | dan/two_updates.py:16-22 | the main loop never returns; it only notes completion once |
| TwoUpdates.InvReachable | dan/two_updates.py:16-35 | completion implies `update2` ran, and `run` never returns in any reachable state |

## Left out

- The Temporal runtime is not part of this model: the coroutine scheduler, replay, timers,
  polling of wait conditions, update admission and history events. Waits are guards, and
  continue-as-new is a returned value.
- Interleaving inside a handler is not modelled. Lock-protected sections and synchronous
  handlers are single steps. The `asyncio.Lock` in the cluster managers appears only as
  the `locked` parameter of `should_continue_as_new`.
- Activities other than `find_bad_nodes` only log, so they are left out. Their results
  (the serialized task's activity, the greeting lookup, `is_continue_as_new_suggested`,
  the history length) are parameters.
- Logging, `print`, the workers, the starters, clients and `main()` functions are left out.
  They are I/O.
- ParseInt accepts an optional sign and ASCII digits. Python's `int()` also accepts
  surrounding whitespace, underscores between digits and non-ASCII digits. Node names
  never contain these.
- AsyncGreeting.SetLanguage: the update runs as one step, although `set_language` takes
  no lock and awaits the greeting activity unprotected. Two overlapping calls for the same
  ungreeted language would both find it missing, and the second to finish would write
  `greetings[language]` again. The model does not show that rewrite. The
  `bad_async_handler` and `safe_async_handler` examples, whose point is interleaving, are
  left out.
- AsyncGreeting.ApplyGrows: "an existing greeting never changes" holds only when each
  `set_language` runs as one step; overlapping calls for the same language can rewrite it.
- AsyncGreeting.GreetingsOnlyGrow: the same restriction to one-step updates applies.
- `my_update` in `dan/docs_message_passing_async.py` refers to names the file never
  defines, so it cannot run and is left out. So are the float coordinates of its
  `Payload`.
- SerializedTasks.MainStep: the activity result is taken as a string, since the sample
  never says what the activity returns.
- LegacyClusterManager.PerformHealthChecks: the activity retries forever on an
  unparsable name. This is shown as `Blocked` rather than as an unbounded series of
  retries. Reachable states never take that branch.
- ClusterManager.AfterWait: the one-second timeout on the wait is not a guard. Each loop
  turn is one call after the wait has ended, whether it timed out or not.
- The sleep between the lifecycle's allocation and deletion phases is left out. It does
  not change the node table.
