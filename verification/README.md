# blkit, verified

A Dafny model of the parts of blkit (a workflow and decision engine written in Go)
whose correctness is hardest to see from the code, with proofs about every input,
every run or every reachable state. `dafny verify dfyconfig.toml` checks the whole
project.

| area | files |
|---|---|
| decision graphs: wiring, Kahn's sort, evaluation | `TopologicalSort`, `DecisionGraph`, `DataFlow`, `DecisionTask`, `DecisionExpression` |
| the in-memory message broker as a state machine and as an object | `Subscriber`, `BrokerJobs`, `BrokerTopics`, `Broker`, `BrokerOrder`, `BrokerFeed`, `Fetchers`, `BrokerObject` |
| run-state stores: the in-memory store, the bbolt store, the refinement between them, SQL Server run locks | `StateStore`, `InMemoryStore`, `ByteKeys`, `Bucket`, `BboltStore`, `PendingIndex`, `StoreRefinement`, `StoreEffects`, `RunLocks` |
| the expression patcher: lowering of connectives, conditionals and dictionary literals | `Expressions`, `Lowering`, `LoweredForms`, `LoweringLimits`, `LoweringScopes`, `Patcher` |
| calendars, months, durations, intervals | `BusinessDays`, `Months`, `DurationParts`, `DurationText`, `DurationRoundTrip`, `DurationGrammar`, `Intervals` |
| table joins, the Azure worker feed | `Join`, `JoinRelation`, `TableJoin`, `RegistryFeed` |
| shared | `Prelude`, `Decimals` |

Objects whose methods update fields in the source are classes here, loops are methods
with invariants, and each is proved against functions that carry the theorems. Where a
theorem compares two definitions that share a third, a further one says what that third
means in terms of inputs and outputs alone: `DataFlow`, `StoreEffects`, `LoweredForms`,
`BrokerOrder`, `BrokerFeed`, `DurationGrammar` and `JoinRelation` hold those.

## What the proofs turned up

Each of these is a lemma with a concrete input or a family of inputs, next to a lemma
that says exactly when the promise does hold.

- Closing a bounded subscriber while its drop flag is up leaves the last loss
  unannounced (`Subscriber.CloseCanHideALoss`, `Subscriber.AnnouncedIffFlagDown`); the flag
  goes up exactly when a send does not fit (`Subscriber.SendLosesIff`).
- The terminal lifecycle event is what a late subscriber is shown only as long as
  nobody publishes another lifecycle event, and after a failure a later error replaces
  the retained one (`BrokerTopics.TerminalStaysLatest`, `BrokerTopics.FailedRetains`,
  `BrokerTopics.FailureCanBeMasked`). A completed instance keeps its result for every late
  subscriber (`Broker.CompletionServed`).
- A fetcher hands its job over after it has let go of the broker's lock, so a job can be
  settled between the two. What it hands over was waiting and neither settled nor withdrawn
  when it was taken, and is so still exactly when none of the steps in between settled or
  withdrew it (`Fetchers.HandedOver`, `Fetchers.SettledInHand`).
- bbolt's event keys sort timestamps before 1970 after all others. It serves a run's history
  as the in-memory store does exactly when the run's values stay on one side of the epoch and
  so do its history entries. It serves the same current version exactly when every slot with
  committed values on both sides has the same latest value on them
  (`StoreRefinement.BboltRefinesInMemory`, `StoreRefinement.EpochReversesReplay`).
- bbolt reads an absent value back as null, so without that reading the current versions are
  equal exactly when, besides, no current value is absent (`StoreRefinement.SameCurrentIff`).
- A prefix scan for one task is exact for NUL-free ids, and in general exactly when the ids
  cannot be confused (`ByteKeys.PrefixScanExactIff`); a flip after one write of another task
  leaves its value alone exactly when the two keys do not start alike
  (`PendingIndex.ForeignFlipIff`).
- The comment on `lowerMap` (core/patch.go:75-78) says that a dictionary entry may refer
  to an earlier identifier key. The code evaluates all identifier keys first, so an entry
  under another key also sees the later ones. The two readings agree for every choice of
  values exactly when no other key stands before an identifier key
  (`LoweringLimits.KeyOrderDecides`, `LoweringLimits.LaterKeyCaptured`).
- `wholeMonthsBetween` ignores the time of day, so for date-times the whole months can
  overshoot or fall short; the exact conditions are `Months.FitsIff` and `Months.ReachesIff`
  (`Months.MonthTooFar`, `Months.MonthMissed`). `monthsBetween(t, t + n months)` is n
  exactly when n is not negative or the day was not clamped (`Months.MeasuresIff`,
  `Months.ClampedMeasuresMore`, `Months.MarchToFebruary`).
- A days-time duration prints to text that its own parser refuses exactly when one of the
  34-digit quotients rounds up to a whole number, which takes at least 30 fractional digits
  (`DurationRoundTrip.RoundTripIff`, `DurationRoundTrip.AlmostADayIsRefused`).
- Business-day stepping ends from every start date exactly when no holiday range is open in
  the direction of the walk; under such a range there are dates from which it does not end
  (`BusinessDays.WalkEndsIff`).
- The indexed join pairs null keys and keys of different types that look alike, which
  cell equality does not (`Join.NullsAreJoined`, `Join.LookalikesAreJoined`). It is the
  nested-loop join exactly when no left row meets such a partner, except that a left or outer
  join may meet one that adds nothing to a row it keeps anyway (`Join.JoinsAgreeIff`,
  `Join.SpuriousIff`, `Join.NullsMayNotShow`).

## Model

| member | source | states |
|---|---|---|
| TopologicalSort.RelaxAll | core/decision_task.go:208-213 | the in-place inner loop of the drain decrements each successor and queues exactly those that reach zero, in order |
| TopologicalSort.DrainQueue | core/decision_task.go:203-214 | the queue loop terminates and computes the drain that the theorems are about |
| TopologicalSort.DrainProgress | core/decision_task.go:203-214 | on any graph the emitted nodes are in dependency order and every node left over waits on a node left over |
| TopologicalSort.DrainSorts | core/decision_task.go:197-215 | from true in-degrees and the sources queued in any order, all nodes are emitted exactly when the graph has no directed cycle (self-loops count), and then producers precede consumers |
| DecisionGraph.BuildTables | core/decision_task.go:176-196 | the in-degree and successor tables count each distinct dependency once, however many edges carry it |
| DecisionGraph.SeedQueue | core/decision_task.go:197-202 | the queue starts with exactly the nodes of in-degree zero, once each, in whatever order the map is walked |
| DecisionGraph.TopoSortNodes | core/decision_task.go:176-216 | reports a cycle exactly when there is one, otherwise returns a permutation of the nodes with producers first |
| DecisionGraph.GatherIsMeaning | core/decision_task.go:233-244 | the inputs a node reads from the environment are those its order-free meaning is computed from |
| DecisionGraph.EvaluateIsMeaning | core/decision_task.go:219-262 | for every topological order the outcome of evaluation (failure or outputs) is the recursive meaning of the wiring |
| DataFlow.EvaluateSolves | core/decision_task.go:219-262 | said of the edges alone: evaluation returns a result exactly when some assignment of outputs to the nodes, each run on what its edges carry from inputs, constants and other nodes, delivers it to fitting output fields; so it fails exactly when there is none |
| DataFlow.SolutionIsMeaning | core/decision_task.go:219-262 | every such assignment gives each node the same outputs: those of the run |
| DataFlow.DeliveredFlows | core/decision_task.go:229-262 | an output wired from an input shows it (null if unset or nil), one wired from a constant shows the constant, and a node wired from inputs alone is run on exactly those |
| DataFlow.AcceptedIffWhole | core/decision_task.go:105-172 | the checks are passed exactly by the graphs with at least one node, all of them named, exactly one edge into every input of every node and into every output, and no ring of nodes that feed each other |
| DecisionGraph.OrderIsInvisible | core/decision_task.go:176-262 | any two orders the sort may pick give the same outcome |
| DecisionGraph.InputsReady | core/decision_task.go:233-244 | in a graph that passed its checks every source of a node's inputs is in the environment before the node runs |
| DecisionTaskObject.CollectEdges | core/decision_task.go:121-138 | the first loop collects exactly the nodes, destinations and constants of the edges, and rejects a destination wired twice |
| DecisionTaskObject.CheckNodes | core/decision_task.go:143-152 | the per-node checks find a problem exactly when some node has an empty id or an unwired input |
| DecisionTaskObject.CheckOutputs | core/decision_task.go:153-157 | the output check passes exactly when every task output is wired |
| DecisionTaskObject.ChecksDecide | core/decision_task.go:121-157 | together the checks are the wiring clauses of well-formedness |
| DecisionTaskObject.DecisionTask.Graph | core/decision_task.go:105-172 | accepts exactly the well-formed acyclic wirings of a task not wired before; any rejection leaves the task unchanged; for typed handles those are the graphs with a node, all nodes named, one edge into every input and output, and no ring |
| DecisionTaskObject.DecisionTask.Evaluate | core/decision_task.go:219-262 | an unwired task fails; a wired one returns the recursive meaning of the edges it was given, whatever order it holds, which is a result exactly when the edges have a solution that delivers it; outputs wired straight through show the inputs and constants, and nodes wired from inputs alone run on them (field names being identifiers, so that none is the reserved name of a constant) |
| DecisionExpression.BuildEntryTables | core/decision_expression.go:386-407 | the tables are those of the dependency sets, and the first self-reference stops the build |
| DecisionExpression.NamesSort | core/decision_expression.go:408-428 | the sorted names are all of them exactly when the dependencies are acyclic, and then in dependency order |
| DecisionExpression.TopoSortEntries | core/decision_expression.go:386-430 | rejects exactly the cyclic dependency lists, naming the first entry that uses its own output if there is one and no entry otherwise, else returns every entry once, dependencies first |
| DecisionExpression.PlanIgnoresDepOrder | core/decision_expression.go:386-430 | the plan is the same for any order and repetition of names in the map-ordered dependency lists |
| Subscriber.RunAccounts | core/in_memory_message_broker.go:866-896 | under every interleaving of sends, reads and close the channel tiles the offered events: real events stand for themselves, each drop notice for a non-empty dropped block |
| Subscriber.OfferedIsSent | core/in_memory_message_broker.go:866-896 | what the channel accounts for is what it opened with and then every event sent before the close |
| Subscriber.NeighboursStayNeighbours | core/in_memory_message_broker.go:866-889 | two real events adjacent in the channel were adjacent when published |
| Subscriber.OrderKept | core/in_memory_message_broker.go:866-889 | real events are a subsequence of those published, in order |
| Subscriber.AnnouncedIffFlagDown | core/in_memory_message_broker.go:866-896 | every lost event has been announced exactly when the drop flag is down |
| Subscriber.SendLosesIff | core/in_memory_message_broker.go:866-889 | a send raises the flag exactly when the buffer has no room for the event and, if one is owed, the notice before it; otherwise both enter the channel |
| Subscriber.CloseCanHideALoss | core/in_memory_message_broker.go:891-896 | a run whose last loss is never announced because the channel closed |
| BrokerTopics.LateSubscriber | core/in_memory_message_broker.go:356-385 | in any state that keeps the invariant a late subscriber first gets the last lifecycle event published; the replay is at most two events into a buffer of at least two, so subscribing never blocks; the channel is closed exactly for a finished instance |
| BrokerTopics.ResultRetained | core/in_memory_message_broker.go:829-864 | once a result is published it stays the retained terminal event whatever follows |
| BrokerTopics.TerminalStaysLatest | core/in_memory_message_broker.go:829-864 | the terminal lifecycle event stays the replayed one exactly as long as no other lifecycle event is published |
| BrokerTopics.ErrorWhileFailed | core/in_memory_message_broker.go:829-864 | while the failed phase is the latest, the retained error is the last error published |
| BrokerTopics.FailedRetains | core/in_memory_message_broker.go:829-864 | what a failed instance retains is the last error before the next lifecycle event |
| BrokerTopics.FailureCanBeMasked | core/in_memory_message_broker.go:829-864 | a concrete run in which a later error replaces the one the instance failed with |
| Broker.StepInv | core/in_memory_message_broker.go:212-815 | every verb of the broker keeps the invariant on jobs, index, records and channels |
| Broker.ReachableInv | core/in_memory_message_broker.go:574-652 | in every reachable state each enqueued job is in exactly one of its own key's queue (once), in flight, settled, or withdrawn; byInst is a duplicate-free index of inFlight without empty entries |
| Broker.ReadyKey | core/in_memory_message_broker.go:574-590 | the chosen key has a job and is the first asked-for key that has one; no key is chosen exactly when none has a job |
| Broker.DeliveriesSafe | core/in_memory_message_broker.go:574-652 | over any run a settled or withdrawn job is never taken from the queues, and a fetcher takes only jobs for keys it asked for |
| Broker.NeverDeliveredAgain | core/in_memory_message_broker.go:574-652 | settled and withdrawn are absorbing: nothing out after the first part of a run is taken in the rest |
| Broker.OneTerminalEvent | core/in_memory_message_broker.go:792-815 | in every reachable state a record's log has at most one terminal lifecycle event, and an ended record has no subscribers |
| Broker.LogOnlyGrows | core/in_memory_message_broker.go:792-864 | along any run in which a record is neither purged nor replaced its log only grows and a finished record stays finished |
| Broker.RecordKept | core/in_memory_message_broker.go:196-200 | a step keeps every record unless it submits that instance again or sweeps its finished, expired record |
| Broker.CompletionServed | core/in_memory_message_broker.go:356-385 | once a completion is accepted in a reachable state, every later subscriber before the purge gets a closed channel holding exactly the last lifecycle event and then the reported result |
| Broker.ChannelsEndCleanly | core/in_memory_message_broker.go:792-896 | in every closed channel a terminal lifecycle event is followed by at most one event, a result after completed, an error after failed, nothing after cancelled |
| Broker.EndReachesSubscribers | core/in_memory_message_broker.go:724-750 | a reported end in a reachable state closes the instance's channels with its own lifecycle event and after it at most the reported result or error |
| Fetchers.HandedOver | core/in_memory_message_broker.go:530-570 | whatever a fetcher is about to hand over was, when taken, waiting under a key it asked for and neither settled nor withdrawn; it is out now exactly when a step since the take settled or withdrew it |
| Fetchers.StepEndsIff | core/in_memory_message_broker.go:629-639 | a step puts a job out exactly when it settles the job's instance while the job is in flight, or withdraws it from its queue |
| Fetchers.SettledInHand | core/in_memory_message_broker.go:546-560 | an end reported between take and hand-over leaves the job in the fetcher's hand, settled |
| BrokerOrder.StepQueues | core/in_memory_message_broker.go:212-934 | every step leaves the queues alone, appends one new job to the back of its queue, takes the front job of one (fetches only), withdraws one job (cancels only) or puts one in-flight job in front of its queue (redeliveries only) |
| BrokerOrder.FetchTakesFront | core/in_memory_message_broker.go:574-590 | a fetch takes the job at the front of the first of its keys that has one, and nothing exactly when none has |
| BrokerOrder.StepAhead | core/in_memory_message_broker.go:212-934 | while one job waits in front of another the other is not taken, until the first is taken or one of them is withdrawn |
| BrokerOrder.TakenInOrder | core/in_memory_message_broker.go:574-605 | over any run, when the job behind is taken the one in front was taken before it or withdrawn |
| BrokerOrder.FirstComeFirstTaken | core/in_memory_message_broker.go:574-605 | in every reachable state, of two jobs waiting under one key the one enqueued first is taken first, or withdrawn, unless the later one had been redelivered |
| BrokerOrder.RedeliveredIsNext | core/in_memory_message_broker.go:592-605 | after a redelivery the next fetch for the job's key takes it, and all queues are then as before the redelivery |
| BrokerOrder.RedeliveredLeads | core/in_memory_message_broker.go:592-605 | a redelivered job is in front of everything else waiting under its key |
| BrokerFeed.StepSends | core/in_memory_message_broker.go:792-896 | every step sends a registered subscriber exactly the events it publishes on the topic, those of an end before the channel is closed |
| BrokerFeed.SubscribersAreFed | core/in_memory_message_broker.go:356-403 | in every run a subscriber that stays has been offered the events it was opened with and then exactly those published since, in order, and its channel accounts for all of them |
| BrokerObject.SendEach | core/in_memory_message_broker.go:861-863 | the fan-out gives every channel the event, for any order of the map |
| BrokerObject.SpliceOut | core/in_memory_message_broker.go:608-625 | searching and splicing removes exactly the first occurrence |
| BrokerObject.CloseEach | core/in_memory_message_broker.go:811-814 | every channel is closed and deregistered, for any order of the map |
| BrokerObject.CloseRecords | core/in_memory_message_broker.go:152-157 | the loop of a shutdown closes and deregisters every channel of every record, for any order of the maps |
| BrokerObject.SuspensionShows | core/in_memory_message_broker.go:692-720 | an accepted suspension is on the topic, has settled what was in flight, and has armed the timer if there is a resume time; it is accepted exactly for a named instance of an open broker |
| BrokerObject.InMemoryMessageBroker.constructor | core/in_memory_message_broker.go:78-102 | a new broker is in the initial state of the machine |
| BrokerObject.InMemoryMessageBroker.EnqueueLocked | core/in_memory_message_broker.go:644-652 | the new job goes to the end of its key's queue, or nothing changes if it cannot cross the wire |
| BrokerObject.InMemoryMessageBroker.TakePendingLocked | core/in_memory_message_broker.go:574-590 | the first asked-for key with a job gives up its head, which becomes in flight and indexed |
| BrokerObject.InMemoryMessageBroker.ReleaseLocked | core/in_memory_message_broker.go:608-625 | the job leaves inFlight and byInst, and an emptied entry goes |
| BrokerObject.InMemoryMessageBroker.RequeueJob | core/in_memory_message_broker.go:593-605 | a job in flight in an open broker leaves inFlight and is in front of its key's queue, all other queues unchanged; any other job changes nothing |
| BrokerObject.InMemoryMessageBroker.SettleInstanceLocked | core/in_memory_message_broker.go:629-639 | all in-flight jobs of the instance are settled and its index entry goes |
| BrokerObject.InMemoryMessageBroker.RemoveQueuedStartLocked | core/in_memory_message_broker.go:925-934 | the instance's queued start job is withdrawn if it is still there, and the answer says whether it was |
| BrokerObject.InMemoryMessageBroker.PublishLocked | core/in_memory_message_broker.go:829-864 | retains the event by its kind and writes it to every open channel |
| BrokerObject.InMemoryMessageBroker.EndTopicLocked | core/in_memory_message_broker.go:792-815 | publishes the end and closes the channels once; a finished record is left as it is |
| BrokerObject.InMemoryMessageBroker.FinishLocked | core/in_memory_message_broker.go:792-815 | ends the topic, settles the instance's jobs and stops its timer |
| BrokerObject.InMemoryMessageBroker.Submit | core/in_memory_message_broker.go:212-265 | does exactly the submit step; an accepted start job is last in its key's queue and its record holds one pending event; a refusal changes no job; accepted exactly by an open broker for a live registration with that start id, valid input and an envelope that can be encoded |
| BrokerObject.InMemoryMessageBroker.Cancel | core/in_memory_message_broker.go:270-295 | does exactly the cancel step: accepted exactly with a live registration and either the start still queued, which is withdrawn for good and the instance finished, or cancelling allowed, and then a cancel job joins the back of the key's queue; a refusal changes nothing |
| BrokerObject.InMemoryMessageBroker.Terminate | core/in_memory_message_broker.go:298-319 | accepted exactly with a live registration that allows it, and then a terminate job joins the back of the key's queue and nothing else of the jobs changes; a refusal changes nothing |
| BrokerObject.InMemoryMessageBroker.RespondToInputRequest | core/in_memory_message_broker.go:324-350 | for a known unfinished instance a respond job joins the back of the queue of the key it was submitted under; for any other an error event with the code for finished or unknown is published; a refusal changes nothing |
| BrokerObject.InMemoryMessageBroker.SubscribeToInstance | core/in_memory_message_broker.go:356-403 | hands out a channel of at least two places with the retained events, or the not-found error, registered unless the instance has finished |
| BrokerObject.InMemoryMessageBroker.ReportPhase | core/in_memory_message_broker.go:681-688 | accepted exactly for a named instance of an open broker, and then the event ends its log and no job changes: running, errors, input requests and completed nodes |
| BrokerObject.InMemoryMessageBroker.ReportSuspended | core/in_memory_message_broker.go:692-720 | publishes the suspension, settles the jobs and arms the timer if there is a resume time |
| BrokerObject.InMemoryMessageBroker.ReportFinished | core/in_memory_message_broker.go:724-750 | accepted exactly for a named instance of an open broker; the log gains the terminal event and the result or error of the ending; afterwards the record is finished, its channels are closed, it holds no job and no timer; a refusal changes nothing |
| BrokerObject.InMemoryMessageBroker.ResumeTimerFired | core/in_memory_message_broker.go:705-718 | the timer goes; a resume job joins the back of its key's queue exactly for a known, unfinished instance of an open broker |
| BrokerObject.InMemoryMessageBroker.SubscriberGone | core/in_memory_message_broker.go:389-401 | the channel is closed and deregistered unless that already happened |
| BrokerObject.InMemoryMessageBroker.Shut | core/in_memory_message_broker.go:134-163 | closes every channel of every record, stops the timers and refuses later calls; a second close changes nothing |
| BrokerObject.InMemoryMessageBroker.SweepRecords | core/in_memory_message_broker.go:196-200 | purges exactly the finished, expired records without subscribers |
| StateStore.ReplaySorts | core/state_store.go:238-255 | replaying is a permutation in (timestamp, arrival) order |
| StateStore.SortRecords | core/state_store.go:238-255 | the in-place sort leaves the slice in replay order |
| StateStore.ProblemOf | core/state_store.go:191-233 | the checks in their order find a problem exactly with an operation that is not well-formed |
| InMemoryStore.FlipScan | core/in_memory_state_store.go:77-83 | the scan settles exactly the pending values of the task |
| InMemoryStore.InMemoryStateStore.Save | core/in_memory_state_store.go:40-50 | stores the run's metadata and nothing else |
| InMemoryStore.InMemoryStateStore.WriteBatch | core/in_memory_state_store.go:54-98 | taken exactly when no operation has a problem, and then all operations are applied in order; otherwise none is |
| InMemoryStore.InMemoryStateStore.Current | core/in_memory_state_store.go:105-128 | folds the committed values in replay order |
| InMemoryStore.InMemoryStateStore.History | core/in_memory_state_store.go:132-147 | returns both logs in replay order |
| InMemoryStore.StoredValues | core/in_memory_state_store.go:54-98 | after any stream of valid operations each value has the status of the first later flip of its task, pending if there is none |
| InMemoryStore.SettledForEver | core/in_memory_state_store.go:54-98 | a settled value never changes again |
| InMemoryStore.SplitBatch | core/in_memory_state_store.go:54-98 | cutting a valid batch in two leaves the same store |
| InMemoryStore.InterleavingIrrelevant | core/in_memory_state_store.go:54-98 | streams that give every run the same operations in the same order leave the same store |
| InMemoryStore.CurrentIsLatest | core/in_memory_state_store.go:105-128 | after any sequence of saves and batches a slot is current exactly when a committed value was written to it, and holds the (timestamp, arrival)-greatest one |
| ByteKeys.EventKeyRoundTrip | stores/bbolt/store.go:82-91 | splitting an event key gives back every 64-bit timestamp and sequence number |
| ByteKeys.EventKeyOrder | stores/bbolt/store.go:82-87 | byte order of event keys is the unsigned reading of the timestamp, then the sequence number |
| ByteKeys.KeyOrderIsReplayOrderIff | stores/bbolt/store.go:82-87 | key order is replay order exactly between timestamps on the same side of the epoch |
| ByteKeys.PrefixScanExact | stores/bbolt/store.go:95-100 | for NUL-free task ids a prefix scan meets exactly the task's keys |
| ByteKeys.PrefixScanExactIff | stores/bbolt/store.go:95-100 | for arbitrary ids it does exactly when neither id can be confused with the other |
| Bucket.ScanPrefix | stores/bbolt/store.go:200-204 | the cursor loop returns exactly the keys with the prefix, in order |
| BboltStore.ApplyStatusFlip | stores/bbolt/store.go:195-228 | collects the pending keys of the task, then settles what they point to and removes them; a dangling entry is an error |
| BboltStore.Transact | stores/bbolt/store.go:140-169 | operation by operation, stopping at the first error |
| BboltStore.BboltStateStore.WriteBatch | stores/bbolt/store.go:140-169 | validated first, operation by operation, then committed as a whole or not at all |
| BboltStore.BboltStateStore.Current | stores/bbolt/store.go:269-302 | the key-ordered walk folds the committed values |
| BboltStore.BboltStateStore.FullHistory | stores/bbolt/store.go:306-362 | both buckets in key order, keys split into timestamp and sequence number; nothing for an unknown run |
| StoreRefinement.PutMirrors | stores/bbolt/store.go:171-193 | a newer record goes to the same place in the key-ordered bucket as in the replay order |
| PendingIndex.FlipSettles | stores/bbolt/store.go:195-228 | with no stored task that can be confused with the flipped one, a flip through the pending index never meets a dangling entry and settles exactly the pending values of its task |
| PendingIndex.ForeignFlipIff | stores/bbolt/store.go:195-228 | after a single write of another task a flip leaves its value alone exactly when the value's pending key does not start like the flipped task's |
| StoreRefinement.ValueStep | stores/bbolt/store.go:171-193 | a value write keeps the two stores in step, an absent value stored as null |
| StoreRefinement.HistoryStep | stores/bbolt/store.go:230-251 | a history entry keeps the two stores in step |
| StoreRefinement.FlipStep | stores/bbolt/store.go:195-228 | a status flip keeps the two stores in step |
| StoreRefinement.KeyOrderIsReplayIff | stores/bbolt/store.go:82-87 | a log in key order is its replay exactly when its timestamps stay on one side of the epoch |
| StoreRefinement.BboltServes | stores/bbolt/store.go:269-362 | after any sequence of saves and batches, whatever the timestamps, bbolt serves the records of the in-memory store in key order, absent texts as null |
| StoreRefinement.NulFreeSuited | stores/bbolt/store.go:92-100 | NUL-free task ids and 64-bit timestamps are enough for these results |
| StoreRefinement.BboltRefinesInMemory | stores/bbolt/store.go:120-362 | after any sequence of saves and batches with 64-bit timestamps and unconfusable task ids, for every run: the histories are the same, up to renumbering and absent texts read as null, exactly when the run's values stay on one side of the epoch and so do its history entries; the current versions are the same exactly when every slot with committed values on both sides has the same latest value on them |
| StoreRefinement.SameCurrentIff | stores/bbolt/store.go:269-302 | without the reading as null the current versions are equal exactly when, besides, no current value is absent |
| StoreRefinement.EpochReversesReplay | stores/bbolt/store.go:82-87 | for every pair of timestamps across the epoch the in-memory store shows the later write and bbolt the earlier one |
| StoreEffects.TakenWhenComplete | core/state_store.go:191-233 | a write is taken exactly with run, task, execution and field named and a non-zero time; a flip exactly with run and task named, to committed or aborted; an entry exactly with run and kind named and a non-zero time |
| StoreEffects.RefusedWithout | core/state_store.go:191-233 | an unknown kind, or a kind without its payload, is refused |
| StoreEffects.RefusedWhole | core/in_memory_state_store.go:54-60 | one refused operation, and neither store changes for the whole batch |
| StoreEffects.AbortedWrite | core/in_memory_state_store.go:54-147 | after any history a complete write followed by the abort of its task is taken, the served history shows that record as aborted, and the current version is what it was |
| StoreEffects.CommittedWrite | core/in_memory_state_store.go:54-147 | followed by the commit of its task the history shows it as committed, the current version shows its value in its field unless a later record of the field is there, and other tasks' fields are as they were |
| StoreEffects.EntryRecorded | core/in_memory_state_store.go:84-96 | a history entry is served with everything it says, once, and touches neither values nor version |
| StoreEffects.SavedShown | core/in_memory_state_store.go:40-50 | saved metadata is what both reads show; values, history and other runs are as they were |
| StoreEffects.ServedInOrder | core/state_store.go:238-245 | the history is served by timestamp, equal timestamps in the order of writing |
| StoreEffects.AbortedInBolt | stores/bbolt/store.go:140-362 | bbolt takes it too, shows the record as aborted, with null for an absent value, and its current version stays |
| StoreEffects.CommittedInBolt | stores/bbolt/store.go:140-362 | and shows a committed write in the current version unless a record of the field with a later key is there |
| RunLocks.LocksFor | stores/mssql/store.go:252-261 | the locks of a batch are its non-empty run ids, each once, sorted |
| RunLocks.MoveSound | stores/mssql/store.go:196-276 | every move keeps locks exclusive |
| RunLocks.WritersDisjoint | stores/mssql/store.go:196-243 | two batches writing at the same time touch no common run |
| RunLocks.WriterHoldsAll | stores/mssql/store.go:196-276 | whoever writes holds every lock it needs and nobody else holds any of them |
| RunLocks.HeldUntilOver | stores/mssql/store.go:196-276 | a lock taken is held until its batch commits or rolls back, and no longer |
| RunLocks.TakenInListOrder | stores/mssql/store.go:252-276 | locks are taken one at a time in the order of the list |
| RunLocks.NeverStuck | stores/mssql/store.go:252-276 | while some batch is unfinished some batch can go on |
| RunLocks.StartSound | stores/mssql/store.go:252-261 | batches with sorted, duplicate-free locks that hold none are a system the results apply to |
| RunLocks.EveryRunFinishes | stores/mssql/store.go:196-276 | under every interleaving, rollbacks included, the remaining work decreases and a run stops only when all batches are over |
| RunLocks.UnsortedCanDeadlock | stores/mssql/store.go:252-261 | without the sorting two batches can block each other for ever |
| Expressions.OnePassIsTwo | core/patch.go:79-112 | with identifier keys first, evaluating entries in one pass or identifier keys first is the same run |
| Expressions.OrderIsInvisible | core/patch.go:79-112 | bringing identifier keys forward changes no value, error or call order of an expression whose literals have them first |
| Lowering.TablesAreKleene | core/boolean.go:92-138 | the three-valued tables are minimum, maximum and reversal of truth, with anything but a boolean unknown |
| Lowering.LogicalRuns | core/patch.go:391-408 | a lowered connective runs its left operand once and its right operand only when the guard does not decide |
| Lowering.BinaryRuns | core/patch.go:368-382 | a lowered operator evaluates left, then right, then applies the operator its dispatch function is registered for |
| Lowering.IfRuns | core/patch.go:55-61 | a lowered conditional takes the first branch exactly on true, and runs only the branch it takes |
| Lowering.LoweredDictRuns | core/patch.go:79-112 | a lowered dictionary literal evaluates identifier keys in order, then the others with all of them in scope, which keys those are being settled by LoweredForms.WordKeyShared and OtherKeyOutside |
| Lowering.LoweredRuns | core/patch.go:36-112 | for every expression without `__sc` names, every operator meaning and every environment, the lowered tree has the value, error and call sequence of the direct semantics |
| Lowering.LoweringPreservesMeaning | core/patch.go:36-112 | and this is the semantics in written order wherever identifier keys come first |
| LoweredForms.BinaryForm | core/patch.go:368-382 | compiled operators run the left operand, then the right, then the operator on their values, and end as it does |
| LoweredForms.FailingLeft | core/patch.go:368-408 | a failing left operand is the end of an operator or connective: the right one does not run |
| LoweredForms.UnaryForms | core/patch.go:36-73 | negation runs its operand and then the operator; plus adds nothing; not reverses truth and is null otherwise |
| LoweredForms.ListForms | core/patch.go:36-73 | arguments and items run in order; a call then runs its function on them, a list holds them |
| LoweredForms.AndForm | core/patch.go:391-408 | false on the left decides `and` without the right operand; otherwise it is false on a false right, true on two trues, and null |
| LoweredForms.OrForm | core/patch.go:391-408 | true on the left decides `or` without the right operand; otherwise it is true on a true right, false on two falses, and null |
| LoweredForms.IfForm | core/patch.go:55-61 | only true chooses the first branch, and only the chosen branch runs |
| LoweredForms.WordKeyShared | core/patch.go:79-125 | over characters: for every key k that is a letter or underscore followed by letters, digits and underscores, compiled {k: e, j: k} runs e once and has its value under both keys, or fails with e |
| LoweredForms.OtherKeyOutside | core/patch.go:79-125 | for every other key k the second entry reads k where the literal stands, and the literal fails if it is not bound there |
| LoweringLimits.KeyOrderDecides | core/patch.go:79-112 | lowering is unobservable for every choice of values under given keys exactly when no other key stands before an identifier key |
| LoweringLimits.LaterKeyCaptured | core/patch.go:79-112 | a literal that is an error in written order but has a value once lowered |
| LoweringLimits.NamesApart | core/patch.go:391-393 | the names made up for an expression are exactly the next ones, each bound exactly once |
| LoweringScopes.LoweredDeclares | core/patch.go:79-112 | a lowered tree declares no name already in scope exactly when the expression's dictionary literals neither repeat nor shadow an identifier key; made-up names never clash |
| Patcher.BuildDict | core/patch.go:79-112 | the two loops build the constructor call and the nested bindings of the specification |
| Patcher.ValidIdentifier | core/patch.go:115-125 | the loop answers whether the name is an identifier |
| Patcher.FeelPatcher.Patch | core/patch.go:36-73 | the post-order walk with its counter computes the lowering the theorems are about |
| BusinessDays.CoversIsMembership | core/range.go:67-108 | a range covers exactly the days its bounds admit |
| BusinessDays.ContainsDay | core/calendar.go:185-192 | the loop answers whether some entry covers the day |
| BusinessDays.WorksIff | core/calendar.go:154-163 | a day is a business day exactly when it is neither the third nor the fourth day of the week that began on Thursday 1970-01-01, no single date names it and no range's bounds admit it |
| BusinessDays.SingleTakesOneDay | core/calendar.go:154-163 | a single-date entry takes exactly that day away |
| BusinessDays.SingleCounted | core/calendar.go:493-518 | and costs a count one, exactly if it lies in the span and was a business day |
| BusinessDays.BusinessDayStep | core/calendar.go:411-434 | returns the nearest working day in the direction, with no working day before it on the way, or an error exactly when a strict calendar stops vouching for a day before one is met |
| BusinessDays.BusinessDayAdd | core/calendar.go:466-491 | returns the working day up to which the set of working days past the start has n members (the start itself for none; a negative n turns round), or an error exactly when a strict calendar runs out before |
| BusinessDays.BusinessDaysBetween | core/calendar.go:493-518 | returns the size of the set of working days of the closed span, in either order; an error exactly when a strict calendar does not vouch for an end |
| BusinessDays.NthUnique | core/calendar.go:466-491 | the n-th business day is unique |
| BusinessDays.StrictDecides | core/calendar.go:411-491 | in strict mode an addition succeeds or runs out, never both |
| BusinessDays.BetweenAfterAdd | core/calendar.go:466-518 | the count from d to its n-th business day is n, plus one when d is a business day, in both directions |
| BusinessDays.ThereAndBack | core/calendar.go:463-491 | n business days one way and n back return to d exactly when d is a business day |
| BusinessDays.WalkEndsIff | core/calendar.go:411-434 | the non-strict walk ends from every date exactly when no holiday range is open in its direction |
| BusinessDays.AdditionEnds | core/calendar.go:466-491 | with holidays bounded in the direction every addition ends |
| Months.NextMonth | core/date.go:216-218 | months follow one another without gap or overlap, leap years included |
| Months.LastDayOf | core/date.go:216-218 | the day before the first of the next month is the month's length |
| Months.MonthLengths | core/date.go:216-218 | the lengths of the twelve months, leap years included |
| Months.AddMonthsClamped | core/date.go:199-214 | truncating division and its repair compute floor-based month arithmetic for every sign: the month is that many on, the time of day is kept, and so is the day unless the month is too short, when it is the last |
| Months.ShiftMonotone | core/date.go:199-214 | adding more months gives a strictly later moment |
| Months.WholeMonthsBetween | core/datetime.go:553-561 | computes the difference of months, one nearer to zero when the last is incomplete |
| Months.Antisymmetric | core/datetime.go:553-561 | swapping the moments negates the whole months |
| Months.FitsIff | core/datetime.go:553-561 | the whole months fit between the moments unless they end on the same day of month, earlier in the day |
| Months.ReachesIff | core/datetime.go:553-561 | one month more reaches the later moment unless the day was clamped to its month's last and it is later in the day |
| Months.MonthTooFar | core/datetime.go:370-377 | two date-times whose whole months overshoot |
| Months.MonthMissed | core/datetime.go:370-377 | two date-times that are more than the whole months plus one apart |
| Months.DatesBracketed | core/datetime.go:553-561 | for dates t1 + w months <= t2 <= t1 + (w + 1) months |
| Months.UnitsBracketed | core/datetime.go:530-545 | months and years between dates lie in [full, full + 1] |
| Months.DatesInDays | core/datetime.go:530-545 | between two dates: the whole units, and k days past them in a unit of n days count k / n |
| Months.TimeOfDayIgnored | core/datetime.go:470-493 | the times of day do not change the measure |
| Months.DiffAntisymmetric | core/datetime.go:470-493 | swapping the moments negates the fractional measure |
| Months.MeasuresIff | core/datetime.go:470-545 | the months from t to t + n months measure n exactly when n >= 0 or the day was not clamped |
| Months.ClampedMeasuresMore | core/datetime.go:470-545 | going back with the day clamped always measures as more than the months gone back |
| Months.MarchToFebruary | core/datetime.go:470-545 | from 31 March of any year a month back measures as more than a month |
| DurationParts.FloorIsTrue | core/number.go:16-22 | the 34-digit rounded quotient floors to the true quotient, or one more exactly when it rounds up to a whole number |
| DurationParts.PartsAddUp | core/days_time_duration.go:281-287 | the printed parts always add up to the total |
| DurationParts.PartsRightIff | core/days_time_duration.go:281-287 | hours < 24, minutes < 60, seconds < 60 and all parts non-negative exactly when no quotient rounds up; otherwise one is negative |
| DurationParts.ExactUpTo29 | core/days_time_duration.go:281-287 | up to 29 fractional digits no quotient rounds up |
| DurationParts.AlmostADay | core/days_time_duration.go:281-287 | a 30-digit duration that does |
| DurationParts.AccessorsAddUpIff | core/days_time_duration.go:39-64 | days, hours, minutes and seconds recompose to the signed total exactly when no quotient rounds up |
| DurationParts.AccessorsAreParts | core/days_time_duration.go:39-64 | and then each accessor is the printed part, within its range, negative for a negative duration |
| DurationText.FormatDTDuration | core/days_time_duration.go:272-308 | the builder writes the canonical text: sign, then the non-zero parts with their designators |
| DurationRoundTrip.BodyMatches | core/duration_parse.go:14-35 | the pattern finds in printed text exactly the texts it was put together from |
| DurationRoundTrip.MinusNotMatched | core/duration_parse.go:14-35 | text with a minus after the designator P is never matched |
| DurationRoundTrip.RoundTripIff | core/days_time_duration.go:253-308 | parsing the printed form gives the duration back exactly when no quotient rounds up, and is refused otherwise; what the parser accepts is settled by the three DurationGrammar rows |
| DurationRoundTrip.RoundTrip | core/days_time_duration.go:253-308 | with at most 29 fractional digits it always gives the duration back |
| DurationRoundTrip.AlmostADayIsRefused | core/days_time_duration.go:253-308 | a duration whose printed form its own parser refuses |
| DurationGrammar.WrittenAccepted | core/days_time_duration.go:253-270 | every text put together from sign, P, numbers with Y, M, D and, after T, with H, M, S, in any case and with white space around it, is accepted exactly when it has a part and neither years nor months; its value is the signed sum of its parts |
| DurationGrammar.AcceptedIsWritten | core/duration_parse.go:14-63 | nothing else is accepted |
| DurationGrammar.PointedValue | core/duration_parse.go:41-51 | a number with a point has the value of all its digits divided by ten once for each digit after it |
| DurationGrammar.DigitsValue | core/duration_parse.go:41-51 | digits alone have their integer value, and a missing part is zero |
| Intervals.EmptyIff | core/range.go:67-82 | the emptiness test is exact |
| Intervals.ContainsIff | core/range.go:67-108 | an interval holds exactly the points its bounds admit |
| Intervals.PointAlone | core/interval.go:14-23 | a point as an interval holds itself alone |
| Intervals.BeforeIff | core/interval.go:67-82 | before holds exactly when every point of a is below every point of b |
| Intervals.OverlapIff | core/interval.go:112-114 | overlaps holds exactly when they share a point |
| Intervals.MeetsIff | core/interval.go:85-91 | meets holds exactly when the last point of a is the first of b |
| Intervals.RelationsAreTrue | core/interval.go:134-174 | all twelve relations hold of the bounds exactly when they hold of the points, for unbounded and half-open intervals too |
| Intervals.AnswersAreTrue | core/interval.go:118-132 | a relation is null exactly for a null operand or an empty range, and otherwise true of the points |
| Intervals.ExactlyOne | core/interval.go:134-152 | exactly one of before, after and overlaps holds |
| Join.KeyStringsDecide | core/table_methods.go:391-399 | rendered keys agree exactly when the key cells are equal, for non-null cells of one type per column without NUL |
| TableJoin.JoinColumns | core/table_methods.go:483-510 | keys, then the other columns of left and right; an error exactly for a shared other column |
| TableJoin.BuildIndex | core/table_methods.go:400-404 | the index holds for every key its rows in order |
| TableJoin.RowsKeyEqual | core/table_methods.go:464-479 | the loop answers whether all key cells are equal |
| TableJoin.JoinRight | core/table_methods.go:444-462 | the right join is right-major, each row with its left partners or alone |
| TableJoin.EquiJoin | core/table_methods.go:381-433 | errors exactly on a missing key or ambiguous column; the columns are those of both tables; the rows and their order are those of the nested loops on comparable keys, and in general exactly when no left row is affected by a spurious partner; on comparable keys a row is in the join exactly when it merges a matching pair, or for left, right and outer joins an unmatched row with nulls: the left cell in every column the left row has, else the right cell, else null |
| Join.IndexedJoinIsNested | core/table_methods.go:391-428 | on non-null keys of one type per column the indexed join and the nested loops return the same rows in the same order |
| JoinRelation.NestedIsRelation | core/table_methods.go:405-462 | the nested loops return exactly the rows of the relation, cell by cell, for all four kinds of join |
| JoinRelation.InnerCounted | core/table_methods.go:405-418 | an inner join has one row for every matching pair |
| JoinRelation.JoinedColumns | core/table_methods.go:483-510 | the columns of the result are those of the two tables |
| Join.JoinsAgreeIff | core/table_methods.go:391-428 | for every pair of tables the indexed join is the nested loops exactly when no left row meets a spurious partner, or, for left and outer joins, meets a single one that adds nothing to a row without partners; a right join always is |
| Join.SpuriousIff | core/table_methods.go:391-399 | on NUL-free keys a partner is spurious exactly when every key column renders alike and one has a null or two kinds |
| Join.NullsAreJoined | core/table_methods.go:391-418 | null keys are paired by the index though equal to nothing |
| Join.NullsMayNotShow | core/table_methods.go:405-418 | a left join where the spurious match is the row that is kept anyway |
| Join.LookalikesAreJoined | core/table_methods.go:391-418 | a number and a text that render alike are paired by the index though not equal |
| RegistryFeed.EmitAll | brokers/azure-service-bus/registrystore.go:423-428 | one update of the kind per registration, each once, in any order, changes exactly those pairs |
| RegistryFeed.DiffWorker | brokers/azure-service-bus/registrystore.go:429-456 | each case announces exactly that worker's due updates, once: added for a pair that became live, heartbeat lost where the worker is there but no longer live, removed otherwise |
| RegistryFeed.DiffKeys | brokers/azure-service-bus/registrystore.go:442-455 | a worker live before and after: its new pairs are added and the ones it no longer has removed, nothing else announced |
| RegistryFeed.DiffKnown | brokers/azure-service-bus/registrystore.go:429-456 | the first loop brings every previously seen worker up to date, in any order |
| RegistryFeed.DiffNew | brokers/azure-service-bus/registrystore.go:457-461 | the second loop brings every other worker up to date, in any order |
| RegistryFeed.DiffWorkerViews | brokers/azure-service-bus/registrystore.go:422-462 | announces exactly the due updates, each once and with its kind, and folding them turns the live pairs of the previous poll into those of the current one, for any map order |
| RegistryFeed.Watch | brokers/azure-service-bus/registrystore.go:365-394 | over any sequence of polls, failed ones included, the consumer holds exactly the live pairs of the latest successful poll |

## Left out

- The broker's worker registry, heartbeats, registry pumps and wake-up signalling: whether a live registration exists is a parameter of the submit step.
- Context cancellation of broker calls, and the goroutines that wait for it: only their effect (a subscriber is gone, a fetch is redelivered) is a step.
- Job envelopes and the payload cipher: whether a job crosses the wire is a parameter.
- Consumer reads happen between sends as a parameter of each publish; Go's pointers to jobs and subscribers are numbers and values held in the broker's maps.
- The setting of problem texts and error details; errors are kinds.
- What JSON encoding does to a text that bbolt stores: invalid UTF-8 in a name is replaced, and `<`, `>` and `&` in a value or payload are escaped, so that it can read back differently byte for byte.
- bbolt's limits on key size, its file format, and JSON validity and compaction: a supplied value or payload is taken to be JSON text, so the batch that bbolt refuses because a value is empty but not nil, or not JSON, does not occur; the timestamp that bbolt repeats inside its JSON values.
- The nested map of the current version is flattened to (task, field) slots; sequence numbers are below 2^64, as in the refinement's precondition.
- Wrapping of sequence numbers past 2^64 and of nanosecond timestamps outside 64 bits.
- SQL Server itself: a run lock is granted when free and held to commit or rollback.
- Decision expressions: how dependencies are collected from an expression, and the evaluation of entries; the plan is stated over the collected lists.
- Reflection, generics and contract stamping of decision nodes; a node is a function between named ports.
- Rebinding of a name already in scope: the engine refuses such a tree, while the model runs it with the later binding; LoweringScopes says which trees those are.
- The expression parser, source-text normalisation, member access, calls with special lowering, filters and row-scoped rewriting; computed dictionary keys, which `lowerMap` skips.
- The meaning of the arithmetic, comparison and membership operators and of functions: lowering is proved for every meaning.
- Numbers in expressions and join keys are integers; dates and other cell types as join keys.
- Cross joins; a join kind other than the four modelled, which the source treats as inner; a join row that lacks a key column of its table, on which the source would fail.
- Time zones, daylight saving, date-times as business days, iCalendar rules, calendar queries other than coverage.
- Intervals over values that cannot be compared with each other, and the calendar overload of overlaps.
- Day-count bases other than the calendar one, and floating-point rounding of the fractional months and years: they are exact reals here.
- Truncation of fractional counts to whole months and business days: the counts are integers here.
- Conversion of day, hour and month counts to Go's machine integers: they are unbounded here.
- DurationParts.AccessorsAddUpIff: the accessors are unbounded integers, because the conversion to a machine integer only matters past 2^63 days.
- Case mapping of characters other than ASCII letters and the long s in duration text.
- Other brokers and stores, Markdown rendering, option registration and host-value conversions.
