# Actor cluster core, modelled in Dafny

This project models the sequential bookkeeping of a small Java actor
runtime and proves properties of it. In that runtime an `ActorCluster` owns a
`RouterNode` and a thread pool. The router registers one root `Actor` per
topic. Each actor holds a FIFO queue of messages and at most one child actor.
An actor's division strategy decides when its queue is overloaded:

- `NumberBasedDivison` says the queue is overloaded once it holds `queueLimit`
  messages. New messages then go to a child, which is created on demand.
- `NoDivision` never says so.

An execution request submits a Passive actor to the pool. The pool later runs
the actor's `call()`, which hands queued messages to `operate`. Terminating an
actor, a topic, the router or the cluster drains the queues and hands the
messages back. A separate `DelayedCache` is a key-value store whose entries a
cleaner thread drops once they expire.

How the model is laid out:

- `base.dfy` holds the shared values: control blocks, messages, priorities,
  and option and result wrappers.
- `division.dfy` holds the two strategies.
- `control_block_factory.dfy` holds the initial control blocks.
- `chains.dfy` describes the actors as an arena: a sequence indexed by actor
  id, where the child link is an index that points forward. It also holds the
  specification functions for loading (`Reach`, `Place`, `PlaceAll`,
  `Loaded`), for requesting execution (`RequestAll`, `SendTargets`), for
  draining (`Terminated`, `Drained`, `EmptyQueues`, `PassiveFlags`) and for a
  run of `operate` (`Processed`).
- `chain_lemmas.dfy` proves what those functions guarantee:
  - loading keeps every message, and changes nothing off the chain;
  - the threshold splits a batch as the limit says;
  - forwarding to the child agrees with loading message by message;
  - draining composes;
  - queues are FIFO.
- `scheduling.dfy` covers the execution-request bookkeeping: task handles per
  topic, the per-topic actor counter, and how rounds of requests compose.
- `topics.dfy` covers the router's registry, the semantics of
  `waitForTermination` (`Poll`) and the order in which `terminateRouter`
  drains the chains.
- `runtime.dfy` is the imperative core, in the form the Java code has.
  - The class `ActorCluster` holds the actors' state and the router's and the
    cluster's fields.
  - Its methods are `load`, `loadAll`, `sendAll`, `sendByLocking`,
    `sendAllByLocking`, `sendExecutionRequest`, `executeNodeStack`, `deq`,
    `fetchChildActor`, `terminateActor`, `call`, `executeNode`, `addRootActor`,
    the `waitForTermination` variants, `terminateRouter`, `terminateTopic` and
    `terminateCluster`.
  - Each method's contract ties the new state to the specification functions
    above.
  - The loops (`getActiveNodeCount`, `getNodeCount`, the wait loop, the
    loop of `call`, `executeNodeStack`, `terminateRouter`) are `while` loops
    with invariants.
- `cache.dfy` models `DelayedCache` as a class. Its fields are the store, the
  delay queue of expiry records and the liveness of the cleaner. The
  cleaner's loop is the method `Clean`. Expiry times and delays use Java's
  64-bit `long` arithmetic, wrap-around included (`AddLong`, `SubLong`).

Each Java object that holds an actor is its index in the arena. An actor's
`childActor` field is the `child` index.

Some behaviours of the code are easy to misread. The model follows the
code:

- An exception thrown by `operate` ends the run of `call()`, because the
  `try` encloses the whole loop (`Actor.java` lines 406-420). The run does
  not skip the message and go on.
- `addRootActor` raises the topic's counter through `incrementActorCount`.
  It does not reset the counter to 1 (`RouterNode.java` lines 86 and
  110-115).
- `terminateTopic` on a topic without a root actor dereferences `null`. This
  is modelled as `Err(NullReference)` (`RouterNode.java` line 166).
- `terminateCluster` puts the pool's backlog under the key
  `Pool_Waiting_Queue`. That entry replaces a topic of the same name
  (`ActorCluster.java` line 213).
- `terminateActor` interrupts the calling thread (`Actor.java` line 387).
  The model keeps that thread's interrupt status as the field `interrupted`
  because it decides what comes next:
  - a later `Thread.sleep` in `waitForTermination` throws
    (`Err(Interrupted)`);
  - `terminateCluster` on an interrupted thread skips `terminateRouter`;
  - waiting for a pool that has not yet terminated throws and clears the
    status again.

## Model

| member | source | states |
|---|---|---|
| Base.ActorPriority.Priority | actor/src/main/java/par/core/actor/base/ActorPriority.java:4-14 | Every priority's numeric rank is a multiple of 100 between 0 (MAX) and 500 (DEFAULT). |
| Base.IntegerCompare | actor/src/main/java/par/core/actor/base/node/Actor.java:427-429 | Integer.compare: the result is -1, 0 or 1, and it is negative, zero or positive exactly when x is less than, equal to or greater than y. |
| Base.ComparePriority | actor/src/main/java/par/core/actor/base/node/Actor.java:427-429 | compareTo orders actors by priority rank. The result is negative, zero or positive exactly when the first rank is smaller, equal or larger. It is zero only for the same priority. |
| Base.ComparePriorityAntisymmetric | actor/src/main/java/par/core/actor/base/node/Actor.java:427-429 | compareTo is antisymmetric, and two different priorities never compare equal. |
| Base.PriorityOrder | actor/src/main/java/par/core/actor/base/ActorPriority.java:4 | compareTo ranks MAX before HIGH before MEDIUM before LOW before VERY_LOW before DEFAULT. MAX comes first and DEFAULT last. |
| Base.Reverse | actor/src/main/java/par/core/actor/base/node/RouterNode.java:104-108 | Collections.reverse: the result has the same length, and element i is element n-1-i of the input. |
| Base.ZipMeaning | actor/src/main/java/par/core/actor/base/node/RouterNode.java:138-147 | Putting values under distinct keys one after another yields a map whose keys are exactly those keys, each holding its own value. |
| ControlBlockFactory.CreateCb | actor/src/main/java/par/core/actor/factories/ControlBlockFactory.java:16-30 | Routers, clusters and gateways start Active and workers start Passive. Every block is a root and has the requested kind. A kind with no case (the daemon kind) yields null. |
| ControlBlockFactory.WorkerCb | actor/src/main/java/par/core/actor/base/node/Actor.java:136-141 | The block an actor is constructed with is what createCb(WORKER) returns: a Passive root worker. |
| Division.IsConditionValid | actor/src/main/java/par/core/actor/divisionstrategies/NumberBasedDivison.java:31-33 | isConditionValid holds only for NumberBasedDivison, and there exactly when the queue size is at least queueLimit. NoDivision's condition never holds (NoDivision.java:17-19). |
| Division.EmptyQueueAccepts | actor/src/main/java/par/core/actor/divisionstrategies/NumberBasedDivison.java:31-33 | With a positive limit an empty queue is never overloaded, so a freshly created child takes the message. |
| Division.NonPositiveLimitAlwaysDivides | actor/src/main/java/par/core/actor/divisionstrategies/NumberBasedDivison.java:31-43 | With queueLimit <= 0 every queue is overloaded, including a new child's empty one, so forwarding never stops. Such a strategy is excluded from the model. |
| Chains.Chain | actor/src/main/java/par/core/actor/base/node/Actor.java:164-173 | The actors reached from an actor through childActor links start with that actor, and every one of them is an actor created no earlier. |
| Chains.AddChild | actor/src/main/java/par/core/actor/base/node/Actor.java:360-366 | initChildActor links one new actor as the child of an actor that had none. The new actor is a copy of the parent's configuration with an empty queue. No other actor changes, and the arena stays well formed. |
| Chains.EnsureChild | actor/src/main/java/par/core/actor/base/node/Actor.java:374-378 | After fetchChildActor the actor has a child and the arena is well formed. |
| Chains.Reach | actor/src/main/java/par/core/actor/base/node/Actor.java:219-225 | The walk of a load ends at an actor that is not overloaded. That actor is at or below the start, and at most one actor was created on the way. |
| Chains.Processed | actor/src/main/java/par/core/actor/base/node/Actor.java:406-424 | One run of call() consumes a prefix of the queue in order. It takes at least one message when the queue is not empty. No message before the last one threw, and a run that stopped early stopped on a message that threw. |
| Chains.Dequeue | actor/src/main/java/par/core/actor/base/node/Actor.java:343-352 | deq on a non-empty queue returns its head and leaves the rest. On an empty queue it returns a message without payload and the queue stays empty. |
| ChainLemmas.ChainExtends | actor/src/main/java/par/core/actor/base/node/Actor.java:374-378 | Creating children and changing queues only extends a chain. The old chain is a prefix of the new one, and what follows it was created since. |
| ChainLemmas.ReachEffect | actor/src/main/java/par/core/actor/base/node/Actor.java:219-225 | A load stops at the start actor exactly when that actor is not overloaded, and then nothing changes. The walk keeps every queue, touches only the chain, and creates at most one actor, which is then where it stops with an empty queue. |
| ChainLemmas.PlaceEffect | actor/src/main/java/par/core/actor/base/node/Actor.java:219-225 | Exactly the actor where the walk stops receives the message at the end of its queue. Every other queue is unchanged, and actors off the chain are untouched. |
| ChainLemmas.PlaceLocal | actor/src/main/java/par/core/actor/base/node/Actor.java:222-224 | Loading into an actor that is not overloaded appends to its own queue and changes nothing else. |
| ChainLemmas.PlaceAllAppend | actor/src/main/java/par/core/actor/base/node/Actor.java:236-247 | Loading a batch in two parts is the same as loading it at once. |
| ChainLemmas.FullStaysFull | actor/src/main/java/par/core/actor/base/node/Actor.java:236-247 | An overloaded actor's own queue is never touched by loading. It only gains the child its strategy fetches. |
| ChainLemmas.ReachForward | actor/src/main/java/par/core/actor/divisionstrategies/NumberBasedDivison.java:41-43 | A load from an overloaded actor lands where a load from its child, created if needed, lands. |
| ChainLemmas.FullForward | actor/src/main/java/par/core/actor/divisionstrategies/NumberBasedDivison.java:41-43 | executeLoadingStrategy's loadAll into the child produces the same arena as loading the batch message by message into the actor. |
| ChainLemmas.PlaceConserves | actor/src/main/java/par/core/actor/base/node/Actor.java:219-225 | A load neither loses nor duplicates: the chain's messages gain exactly the loaded one. |
| ChainLemmas.PlaceAllConserves | actor/src/main/java/par/core/actor/base/node/Actor.java:236-247 | The chain's messages gain exactly the batch, as a multiset. |
| ChainLemmas.ReachConserves | actor/src/main/java/par/core/actor/base/node/Actor.java:236-247 | Walking the chain without a message (loadAll of an empty batch) leaves the chain's messages as they were. |
| ChainLemmas.LoadedConserves | actor/src/main/java/par/core/actor/base/node/Actor.java:236-247 | After loadAll the chain from the actor holds exactly its old messages plus the batch. |
| ChainLemmas.PlaceAllFrame | actor/src/main/java/par/core/actor/base/node/Actor.java:236-247 | Loading changes no actor off the chain, and the arena after it extends the old one. |
| ChainLemmas.LoadedFrame | actor/src/main/java/par/core/actor/base/node/Actor.java:236-247 | loadAll changes no actor off the chain, and the arena after it extends the old one. |
| ChainLemmas.NoDivisionKeepsLocal | actor/src/main/java/par/core/actor/divisionstrategies/NoDivision.java:17-29 | Under NoDivision loadAll appends the whole batch, in order, to the actor's own queue, and creates no child. |
| ChainLemmas.NoDivisionPlacesLocally | actor/src/main/java/par/core/actor/divisionstrategies/NoDivision.java:17-19 | Under NoDivision loading message by message appends each message to the actor's own queue. |
| ChainLemmas.LimitBoundsQueue | actor/src/main/java/par/core/actor/divisionstrategies/NumberBasedDivison.java:31-43 | Under NumberBasedDivison an actor holding at most queueLimit messages never holds more after any load. |
| ChainLemmas.ThresholdSplit | actor/src/main/java/par/core/actor/divisionstrategies/NumberBasedDivison.java:31-43 | Loading queueLimit + 1 messages into a fresh actor keeps the first queueLimit of them locally. The last one goes into exactly one new child. |
| ChainLemmas.LocalPrefix | actor/src/main/java/par/core/actor/base/node/Actor.java:236-247 | Below the limit, a fresh actor keeps every loaded message locally, in order. |
| ChainLemmas.DrainCount | actor/src/main/java/par/core/actor/base/node/Actor.java:386-395 | A recursive drain returns as many messages as the chain's queues held. |
| ChainLemmas.EmptyQueuesKeepsChain | actor/src/main/java/par/core/actor/base/node/Actor.java:392-393 | Replacing queues by empty ones keeps the arena well formed and every chain as it was. |
| ChainLemmas.DrainedChainIsEmpty | actor/src/main/java/par/core/actor/base/node/Actor.java:386-395 | After its chain is drained, an actor's chain holds no messages, so a second drain returns nothing. |
| ChainLemmas.NoActiveIffAllPassive | actor/src/main/java/par/core/actor/base/node/Actor.java:164-173 | getActiveNodeCount is 0 exactly when every actor of the chain is Passive. |
| ChainLemmas.ProcessedInOrder | actor/src/main/java/par/core/actor/base/node/Actor.java:409-411 | When operate never throws, a run hands it every queued message in queue order. |
| ChainLemmas.DequeueAfterEnqueue | actor/src/main/java/par/core/actor/base/node/Actor.java:343-352 | Queues are FIFO. Dequeuing after an append to a non-empty queue returns the old head and keeps the appended message at the end. |
| ChainLemmas.DequeueAllInOrder | actor/src/main/java/par/core/actor/base/node/Actor.java:343-352 | The (k+1)-th deq returns the k-th enqueued message. |
| ChainLemmas.ChainTopic | actor/src/main/java/par/core/actor/base/node/Actor.java:360-378 | Every actor of a chain has the topic and strategy of its first actor. |
| ChainLemmas.PlaceTargetsAppend | actor/src/main/java/par/core/actor/base/node/Actor.java:298-303 | The actors reached by a batch sent in two parts are those reached by each part. |
| ChainLemmas.PlaceTargetsForward | actor/src/main/java/par/core/actor/divisionstrategies/NumberBasedDivison.java:36-38 | Sending into an overloaded actor reaches the same actors as sending into its child. |
| ChainLemmas.SendTargetsForward | actor/src/main/java/par/core/actor/divisionstrategies/NumberBasedDivison.java:36-38 | The actors requested by a send into an overloaded actor are those requested by sendAllByLocking on its child. |
| ChainLemmas.DrainedCompose | actor/src/main/java/par/core/actor/base/node/Actor.java:389-393 | Draining one list of actors and then another is draining both lists. |
| ChainLemmas.ForwardSingle | actor/src/main/java/par/core/actor/base/node/Actor.java:219-225 | One message forwarded by an overloaded actor to its child lands where loading it into the actor would. |
| ChainLemmas.ChildMeasure | actor/src/main/java/par/core/actor/base/node/Actor.java:374-378 | Forwarding to the child makes progress: either the child's chain is shorter, or the child is a new actor that is not overloaded. The child has the parent's topic and strategy. |
| ChainLemmas.ChildLoadKeepsParent | actor/src/main/java/par/core/actor/divisionstrategies/NumberBasedDivison.java:41-43 | Loading into the child leaves the parent's queue, topic and strategy as they were. |
| ChainLemmas.SendTargetsSingle | actor/src/main/java/par/core/actor/base/node/Actor.java:269-281 | sendByLocking requests exactly one actor: the one the message lands at. |
| ChainLemmas.FullMovesOn | actor/src/main/java/par/core/actor/base/node/Actor.java:219-225 | The walk from an overloaded actor always ends further down the chain. |
| ChainLemmas.SendTargetsLocal | actor/src/main/java/par/core/actor/base/node/Actor.java:292-310 | For an actor that is not overloaded, sendAllByLocking requests the actor itself plus every other actor its messages reached. |
| ChainLemmas.ChainStep | actor/src/main/java/par/core/actor/base/node/Actor.java:325-331 | Following childActor from the k-th actor of a chain gives the (k+1)-th one, and the last actor has no child. |
| ChainLemmas.ProcessedUnique | actor/src/main/java/par/core/actor/base/node/Actor.java:409-411 | A prefix of the queue is what one run consumes exactly when no message before its last throws, and it is either the whole queue or its last message throws. |
| ChainLemmas.ConsumedStep | actor/src/main/java/par/core/actor/base/node/Actor.java:409-411 | Handing the next message to operate extends an unstopped run by that message. The run stops exactly when the message throws. |
| ChainLemmas.ConsumedDone | actor/src/main/java/par/core/actor/base/node/Actor.java:409-411 | A run that stopped on a throwing message, or emptied the queue, consumed exactly what Processed says. |
| ChainLemmas.TerminatedStep | actor/src/main/java/par/core/actor/base/node/Actor.java:386-395 | terminateActor's steps together drain the chain: set Passive, terminate the child's chain, then hand back and replace the queue. The result is this actor's queue followed by the child's drained messages. |
| ChainLemmas.ChainMessagesUntouched | actor/src/main/java/par/core/actor/base/node/Actor.java:386-395 | Draining actors outside a chain leaves that chain's messages as they were. |
| Scheduling.Increment | actor/src/main/java/par/core/actor/base/node/RouterNode.java:110-115 | incrementActorCount sets an absent topic to 1 and raises a present one by 1. No other topic changes. |
| Scheduling.WithCount | actor/src/main/java/par/core/actor/base/node/Actor.java:360-366 | Creating n children of a topic raises that topic's counter by exactly n and changes nothing else. |
| Scheduling.WithCountAdd | actor/src/main/java/par/core/actor/base/node/Actor.java:360-366 | Counting children in two rounds is counting them at once. |
| Scheduling.CountsCompose | actor/src/main/java/par/core/actor/base/node/Actor.java:360-366 | The counter maps of two successive rounds of child creation compose. |
| Scheduling.GrewCompose | actor/src/main/java/par/core/actor/base/node/Actor.java:374-378 | Two rounds of chain growth compose: the new actors carry child flags and each was counted once. |
| Scheduling.Issued | actor/src/main/java/par/core/actor/ActorCluster.java:130-146 | Submitted task handles are recorded, in order, under the node's topic. The topic's list is created when absent, and other topics keep their lists. |
| Scheduling.IssuedAdd | actor/src/main/java/par/core/actor/ActorCluster.java:130-146 | Submitting handles in two rounds records the same lists as submitting them in one round. |
| Scheduling.RequestedIdempotent | actor/src/main/java/par/core/actor/base/node/Actor.java:315-320 | A second execution request on the same actor changes nothing and submits nothing, because the actor is notified and Active. |
| Scheduling.ExtendRequestAll | actor/src/main/java/par/core/actor/base/node/Actor.java:315-320 | Creating children changes neither the requests already made nor which of them were admitted. |
| Scheduling.RequestAllUnion | actor/src/main/java/par/core/actor/base/node/Actor.java:325-331 | Requests on two sets of actors in turn are requests on their union. An actor is never admitted twice, and the tasks submitted add up. |
| Scheduling.ComposeRequests | actor/src/main/java/par/core/actor/base/node/Actor.java:325-331 | Two rounds of execution requests within a topic compose into one round over the union of the actors. |
| Scheduling.SentCompose | actor/src/main/java/par/core/actor/base/node/Actor.java:292-310 | Two sends into one chain compose into one send to both sets of requested actors. |
| Scheduling.GrewThenSent | actor/src/main/java/par/core/actor/base/node/Actor.java:255-258 | Growing the chain without a request and then requesting is one send. |
| Scheduling.RequestIsSent | actor/src/main/java/par/core/actor/base/node/Actor.java:315-320 | A single execution request is a send that does not grow the chain. |
| Topics.RegistryKeys | actor/src/main/java/par/core/actor/base/node/RouterNode.java:82-87 | The registered topics are exactly the topics in key iteration order. |
| Topics.PutOrder | actor/src/main/java/par/core/actor/base/node/RouterNode.java:85 | After a put, the key order lists the new key and the old keys, each once, in any order a rehash may give. |
| Topics.RegisterKeepsRegistry | actor/src/main/java/par/core/actor/base/node/RouterNode.java:82-87 | Registering a new topic under any possible key order keeps the registry consistent: each topic appears once in the key order, and each root is an actor. |
| Topics.AllTopicsExactly | actor/src/main/java/par/core/actor/base/node/RouterNode.java:104-108 | getAllTopics lists exactly the registered topics, each once. |
| Topics.Poll | actor/src/main/java/par/core/actor/ActorCluster.java:238-259 | One pass of waitForTermination over the topic list fails only with InvalidTopic or, on an interrupted thread, Interrupted. It returns true for a non-empty list only when the first topic is registered and the thread is not interrupted. |
| Topics.PollMeaning | actor/src/main/java/par/core/actor/ActorCluster.java:238-259 | A wait over a list of topics completes exactly when every listed topic is registered and its whole chain is Passive, on a thread that is not interrupted (or when the list is empty). |
| Topics.PollRegistered | actor/src/main/java/par/core/actor/ActorCluster.java:224-235 | Waiting over registered topics never raises InvalidTopicException. |
| Topics.RootsOf | actor/src/main/java/par/core/actor/base/node/RouterNode.java:140-141 | The root actors of the topics, in key order: entry k is the root of topic k. |
| Topics.RouterStep | actor/src/main/java/par/core/actor/base/node/RouterNode.java:140-142 | Draining the next root's chain after the earlier chains were drained drains one more chain. The messages it returns are that root's share of the drain. |
| Topics.RouterDrainEmpties | actor/src/main/java/par/core/actor/base/node/RouterNode.java:138-147 | After terminateRouter no registered root's chain holds a message. |
| Topics.RouterProgressStart | actor/src/main/java/par/core/actor/base/node/RouterNode.java:139-140 | Before the first topic nothing is drained and no job is recorded. |
| Topics.RouterProgressStep | actor/src/main/java/par/core/actor/base/node/RouterNode.java:140-142 | Terminating the next topic's root recursively and putting the result under the topic advances terminateRouter by one topic. |
| Topics.RouterProgressDone | actor/src/main/java/par/core/actor/base/node/RouterNode.java:138-147 | After the loop every registered chain is drained, and each topic has exactly its own root's drain recorded. |
| Topics.ChainsOfOnly | actor/src/main/java/par/core/actor/base/node/RouterNode.java:140-142 | Every actor terminateRouter drains is on the chain of some registered root. |
| Topics.DisjointDrainOf | actor/src/main/java/par/core/actor/base/node/RouterNode.java:140-142 | When a topic's chain shares no actor with the chains drained before it, its recorded jobs are exactly the messages its chain held. |
| Runtime.TerminateChain | actor/src/main/java/par/core/actor/base/node/Actor.java:386-395 | terminateActor's recursion: the drained actors are the chain when recursive, otherwise the actor alone. Their queues are emptied, they become Passive, and their messages come back in chain order. |
| Runtime.GetActiveNodeCount | actor/src/main/java/par/core/actor/base/node/Actor.java:164-173 | getActiveNodeCount walks the chain and counts exactly its Active actors. |
| Runtime.IsAllTerminated | actor/src/main/java/par/core/actor/ActorCluster.java:244-251 | The inner walk of waitForTermination yields true exactly when every actor of the chain is Passive. |
| Runtime.Assemble | actor/src/main/java/par/core/actor/ActorCluster.java:208-213 | terminateCluster's result holds the router's jobs per topic. When permanent it also holds the pool's backlog under Pool_Waiting_Queue, which replaces a topic of that name. |
| Runtime.TerminateRoots | actor/src/main/java/par/core/actor/base/node/RouterNode.java:139-142 | The loop of terminateRouter drains every registered chain in key order and records each topic's drain under it. |
| Runtime.ActorCluster.constructor | actor/src/main/java/par/core/actor/ActorCluster.java:83-104 | A new cluster has no actors, topics, counters or tasks. The router's block is createCb(ROUTER), and the cluster's block is an Active root of kind CLUSTER, or of the daemon kind for a daemon cluster. |
| Runtime.ActorCluster.NewActor | actor/src/main/java/par/core/actor/base/node/Actor.java:121-141 | A new actor has the given configuration, an empty queue and no child, and its block is a Passive root worker. |
| Runtime.ActorCluster.IncrementActorCount | actor/src/main/java/par/core/actor/base/node/RouterNode.java:110-115 | The counter map becomes Increment of the old one, and nothing else changes. |
| Runtime.ActorCluster.IsTopicExists | actor/src/main/java/par/core/actor/base/node/RouterNode.java:98-101 | A topic exists exactly when getAllTopics lists it, that is, when it has a root actor. |
| Runtime.ActorCluster.GetRootActor | actor/src/main/java/par/core/actor/base/node/RouterNode.java:94-102 | getRootActor returns the topic's root exactly when isTopicExists holds, and null otherwise. |
| Runtime.ActorCluster.GetAllTopics | actor/src/main/java/par/core/actor/base/node/RouterNode.java:104-108 | getAllTopics lists each registered topic exactly once. |
| Runtime.ActorCluster.AddRootActor | actor/src/main/java/par/core/actor/base/node/RouterNode.java:82-87 | An occupied topic raises OccupiedTopicException and changes nothing. Otherwise the root is put under the topic, the key order becomes the given possible order, and the topic's counter is incremented. |
| Runtime.ActorCluster.AddRoot | actor/src/main/java/par/core/actor/ActorCluster.java:151-153 | The actor is registered under its own topic, unless that topic is occupied. On success the key order is updated and the topic's counter goes up by one. On failure the roots, the key order and the counters are unchanged. The actors, both control blocks and the interrupt status are never touched. |
| Runtime.ActorCluster.FetchChildActor | actor/src/main/java/par/core/actor/base/node/Actor.java:374-378 | An existing child is returned unchanged. Otherwise a new Passive, non-root, unnotified child with the parent's configuration is linked in, and its topic's counter rises by one. |
| Runtime.ActorCluster.ExecuteNode | actor/src/main/java/par/core/actor/ActorCluster.java:130-146 | A Passive actor becomes Active and one fresh task handle is appended under its topic. An Active actor changes nothing. |
| Runtime.ActorCluster.SendExecutionRequest | actor/src/main/java/par/core/actor/base/node/Actor.java:315-320 | Only a Passive actor without an outstanding request is submitted, and it becomes notified. Otherwise nothing changes. |
| Runtime.ActorCluster.Deq | actor/src/main/java/par/core/actor/base/node/Actor.java:343-352 | deq returns the head and leaves the rest of the queue, or returns an empty message when the queue is empty. Only that queue changes. |
| Runtime.ActorCluster.Enqueue | actor/src/main/java/par/core/actor/base/node/Actor.java:222-224 | queue.add appends the message to this actor's queue only. |
| Runtime.ActorCluster.Load | actor/src/main/java/par/core/actor/base/node/Actor.java:219-225 | load places the message where Place says: here when not overloaded, otherwise down the chain. Every child created on the way is counted. |
| Runtime.ActorCluster.LoadAll | actor/src/main/java/par/core/actor/base/node/Actor.java:236-247 | loadAll leaves the arena that Loaded specifies, so the chain holds its old messages and the batch. New children are counted. |
| Runtime.ActorCluster.ExecuteLoadingStrategy | actor/src/main/java/par/core/actor/divisionstrategies/NumberBasedDivison.java:41-43 | Under NumberBasedDivison the batch is loaded into the child, fetched or created, and the actor's own queue is untouched. Under NoDivision nothing changes. |
| Runtime.ActorCluster.SendAll | actor/src/main/java/par/core/actor/base/node/Actor.java:255-258 | sendAll is loadAll and then one execution request for this actor only, even when the messages went down the chain. |
| Runtime.ActorCluster.SendByLocking | actor/src/main/java/par/core/actor/base/node/Actor.java:269-281 | sendByLocking places the message as load does and requests exactly the actor it lands at. |
| Runtime.ActorCluster.SendAllByLocking | actor/src/main/java/par/core/actor/base/node/Actor.java:292-310 | sendAllByLocking places the batch as loadAll does and requests exactly the actors SendTargets names. |
| Runtime.ActorCluster.SendEach | actor/src/main/java/par/core/actor/base/node/Actor.java:298-303 | The forEach of sendAllByLocking places every message and requests every other actor a message reached. |
| Runtime.ActorCluster.SendOrQueue | actor/src/main/java/par/core/actor/base/node/Actor.java:299-302 | One message is queued here, or, when the actor is overloaded, sent on to the actor where it lands, which is requested. |
| Runtime.ActorCluster.ExecuteSendingStrategy | actor/src/main/java/par/core/actor/divisionstrategies/NumberBasedDivison.java:36-38 | Under NumberBasedDivison the child, fetched or created, receives sendAllByLocking of the batch. Under NoDivision nothing changes. |
| Runtime.ActorCluster.ExecuteNodeStack | actor/src/main/java/par/core/actor/base/node/Actor.java:325-331 | executeNodeStack makes an execution request for every actor of the chain and changes no queue. |
| Runtime.ActorCluster.TerminateActor | actor/src/main/java/par/core/actor/base/node/Actor.java:386-395 | The actor, and recursively its chain, becomes Passive and is drained, and the messages come back in chain order. The thread is interrupted, and nothing else changes. |
| Runtime.ActorCluster.WaitForTopic | actor/src/main/java/par/core/actor/ActorCluster.java:238-259 | waitForTermination(topic) raises InvalidTopicException for an unregistered topic. It completes only when the chain is Passive, and it throws on an interrupted thread. |
| Runtime.ActorCluster.WaitForTopics | actor/src/main/java/par/core/actor/base/node/RouterNode.java:149-155 | The router's waitForTermination(list) waits for each listed topic in turn. An empty list returns at once. |
| Runtime.ActorCluster.WaitForAll | actor/src/main/java/par/core/actor/ActorCluster.java:224-235 | waitForTermination() over getAllTopics never raises InvalidTopicException. When it completes, every registered chain is Passive. |
| Runtime.ActorCluster.DrainAllTopics | actor/src/main/java/par/core/actor/base/node/RouterNode.java:138-142 | Every registered chain is drained in key order, and each topic's drain is recorded under it. |
| Runtime.ActorCluster.TerminateRouter | actor/src/main/java/par/core/actor/base/node/RouterNode.java:138-147 | terminateRouter drains every registered chain into the jobs map. It then clears the roots and the counters and sets the router Passive. |
| Runtime.ActorCluster.TerminateTopic | actor/src/main/java/par/core/actor/base/node/RouterNode.java:164-168 | An unregistered topic dereferences null. Otherwise the topic's whole chain is drained, and its messages are returned under the topic. |
| Runtime.ActorCluster.TerminateNodeStack | actor/src/main/java/par/core/actor/base/node/Actor.java:397-399 | terminateNodeStack is terminateTopic of the actor's own topic. An unregistered topic is a NullReference error that changes nothing, not even the interrupt status. Otherwise the thread ends up interrupted, and the chain from that topic's root is drained, and its messages are returned under the topic. |
| Runtime.ActorCluster.GetNodeCount | actor/src/main/java/par/core/actor/ActorCluster.java:117-125 | getNodeCount is the length of the topic's chain, or 0 for an unregistered topic. |
| Runtime.ActorCluster.TopicActiveNodeCount | actor/src/main/java/par/core/actor/ActorCluster.java:107-109 | An unregistered topic dereferences null. Otherwise the result is the chain's Active count, which is 0 exactly when the chain is all Passive. |
| Runtime.ActorCluster.RunQueue | actor/src/main/java/par/core/actor/base/node/Actor.java:409-411 | While processing is available, deq feeds operate. The run consumes exactly Processed of the queue and leaves the rest. |
| Runtime.ActorCluster.Call | actor/src/main/java/par/core/actor/base/node/Actor.java:406-424 | call() waits for its wait list. It then runs the queue, unless it would wait forever, and finally the actor is Passive and not notified. |
| Runtime.TerminateThreadPool | actor/src/main/java/par/core/actor/ActorCluster.java:170-182 | If the pool has already terminated, nothing is handed back and the interrupt status is kept. Otherwise waiting clears the status, and the never-run tasks are handed back. |
| Runtime.ActorCluster.TerminateCluster | actor/src/main/java/par/core/actor/ActorCluster.java:194-221 | On an interrupted thread the sleep throws: no topic is drained, the status is cleared, and the roots, counters, key order and router block are kept. Otherwise every chain is drained by terminateRouter, each topic maps to its drain, the roots, counters and key order are emptied, and the router block becomes Passive. When permanent, what terminating the pool hands back goes under Pool_Waiting_Queue, and waiting for a busy pool clears the interrupt status. The cluster becomes Passive. |
| Cache.AddLong | actor/src/main/java/philosophers/arge/actor/cache/DelayedCache.java:63 | Java long addition: the exact sum when it fits, otherwise the sum wrapped by 2^64. |
| Cache.SubLong | actor/src/main/java/philosophers/arge/actor/cache/DelayedCache.java:113-115 | The difference expiryTime - now in Java long arithmetic: the exact difference when it fits, otherwise wrapped by 2^64. |
| Cache.WrappedNeverDue | actor/src/main/java/philosophers/arge/actor/cache/DelayedCache.java:113-115 | A period so long that now + period wraps gives an expiry before the put. Yet at every later moment the remaining delay is positive, so the record is never due. |
| Cache.AddSat | actor/src/main/java/philosophers/arge/actor/cache/DelayedCache.java:63 | Saturating addition: the sum when it fits, otherwise the largest or smallest long. |
| Cache.SaturatedExpiryNoWrap | actor/src/main/java/philosophers/arge/actor/cache/DelayedCache.java:63 | With saturating addition, an expiry is no earlier than the put and never wraps against a later moment. The record is due exactly when the saturated expiry has passed. |
| Cache.CompareExpiry | actor/src/main/java/philosophers/arge/actor/cache/DelayedCache.java:118-120 | Records compare by expiry time as Long.compare does. |
| Cache.CompareExpiryOrder | actor/src/main/java/philosophers/arge/actor/cache/DelayedCache.java:118-120 | The comparison is antisymmetric and transitive. |
| Cache.Insert | actor/src/main/java/philosophers/arge/actor/cache/DelayedCache.java:66 | Putting a record into the delay queue adds exactly one element: the record, with every old record kept. |
| Cache.InsertAdds | actor/src/main/java/philosophers/arge/actor/cache/DelayedCache.java:66 | Putting a record into the delay queue adds exactly that record. |
| Cache.InsertSorted | actor/src/main/java/philosophers/arge/actor/cache/DelayedCache.java:66 | Putting a record keeps the delay queue in release order. |
| Cache.IsDue | actor/src/main/java/philosophers/arge/actor/cache/DelayedCache.java:113-115 | The sign of getDelay that take tests. When expiryTime - now does not wrap, a record is due exactly when its expiry is at most now. |
| Cache.Due | actor/src/main/java/philosophers/arge/actor/cache/DelayedCache.java:41-43 | take examines only the head. The records it releases at time now are the leading due ones, and the record after them is not due, so it holds back everything behind it. |
| Cache.WrappedExpiryStalls | actor/src/main/java/philosophers/arge/actor/cache/DelayedCache.java:113-120 | Put a with the largest period and b with period 10, both at 1000. a sorts first. At 2000 b is due, a is not, and nothing is released. |
| Cache.NoWrapReleasesAllDue | actor/src/main/java/philosophers/arge/actor/cache/DelayedCache.java:113-120 | In a sorted queue where no remaining delay wraps, the released records are exactly the due ones, and a record is due exactly when its expiry is at most now. |
| Cache.SaturatedReleasesAllDue | actor/src/main/java/philosophers/arge/actor/cache/DelayedCache.java:63 | With expiries saturated into 0 .. Long.MAX_VALUE, as intended, the cleaner releases exactly the due records of a sorted queue. |
| Cache.ReleaseDue | actor/src/main/java/philosophers/arge/actor/cache/DelayedCache.java:41-47 | The cleaner's loop takes the head while its delay is not positive. It releases exactly the due prefix of the queue, in order, and the store ends up as those records' conditional removes leave it. |
| Cache.ExpireStale | actor/src/main/java/philosophers/arge/actor/cache/DelayedCache.java:44 | Releasing a record does not remove a key that has been put again since, and never touches other keys. |
| Cache.Expire | actor/src/main/java/philosophers/arge/actor/cache/DelayedCache.java:44 | The conditional remove only removes: it drops the record's key exactly when the key still holds the record's reference, and keeps every other entry as it was. |
| Cache.ExpireAllOnlyRemoves | actor/src/main/java/philosophers/arge/actor/cache/DelayedCache.java:41-47 | The cleaner only removes keys. A key that stays keeps its reference, and a key that no released record refers to stays. |
| Cache.ExpireAllRemovesReleased | actor/src/main/java/philosophers/arge/actor/cache/DelayedCache.java:41-47 | A released record whose key still holds its reference removes that key, whatever the other released records do. |
| Cache.DueKeyExpires | actor/src/main/java/philosophers/arge/actor/cache/DelayedCache.java:41-47 | The time-to-live promise: when no delay wraps, a key whose matching record is due by now is absent once the due records are released. |
| Cache.DueKeysExpire | actor/src/main/java/philosophers/arge/actor/cache/DelayedCache.java:41-47 | The same for every record of the queue at once: each key whose matching record is due by now is absent after the release, when no delay wraps. |
| Cache.ExpireAllAppend | actor/src/main/java/philosophers/arge/actor/cache/DelayedCache.java:41-47 | Releasing one more record is one more conditional remove. |
| Cache.DelayedCache.constructor | actor/src/main/java/philosophers/arge/actor/cache/DelayedCache.java:31-33 | A new cache is empty and its cleaner runs. |
| Cache.DelayedCache.Get | actor/src/main/java/philosophers/arge/actor/cache/DelayedCache.java:78-80 | A null key throws NullPointerException. Otherwise get returns the key's value exactly when the key is present, and null when it is absent. |
| Cache.DelayedCache.Size | actor/src/main/java/philosophers/arge/actor/cache/DelayedCache.java:90-92 | size is the number of keys, and it is 0 exactly for the empty cache. |
| Cache.DelayedCache.Add | actor/src/main/java/philosophers/arge/actor/cache/DelayedCache.java:56-68 | A null key changes nothing. A null value removes the key and enqueues nothing. Otherwise the key gets a fresh reference to the value, and one record due at now + period in long arithmetic joins the queue in release order. |
| Cache.DelayedCache.Remove | actor/src/main/java/philosophers/arge/actor/cache/DelayedCache.java:72-74 | A null key throws NullPointerException and changes nothing. Otherwise remove drops the key, so get then returns null. The queue is unchanged. |
| Cache.DelayedCache.Clear | actor/src/main/java/philosophers/arge/actor/cache/DelayedCache.java:84-86 | clear empties the store but keeps the queue. |
| Cache.DelayedCache.Terminate | actor/src/main/java/philosophers/arge/actor/cache/DelayedCache.java:95-100 | terminate stops the cleaner and empties both the queue and the store. |
| Cache.DelayedCache.Clean | actor/src/main/java/philosophers/arge/actor/cache/DelayedCache.java:38-52 | The running cleaner releases exactly the due head records, in expiry order, and conditionally removes each key. The head left behind is not due. When no delay wraps, every key whose matching record is due by now then reads as absent through get. |

## Left out

- Concurrency is not modelled. Every operation runs to completion, one at a time. The locks (`queueLock`, `poolLock`), the concurrent maps, data races between `load` and `call()`, and the thread pool's workers are not part of the model.
- The thread pool: `pool.submit` is a fresh task handle number (`nextTask`). `abortThreadPoolTasks` (cancelling futures) has no effect on the modelled state. `Runtime.TerminateThreadPool` does not model the pool's workers. Whether the pool has already terminated after `shutdown` is the parameter `poolIdle`, and the never-run tasks that `shutdownNow` returns are the parameter `backlog`. Interrupting the workers is not modelled, and neither is the one-second timeout.
- `Runtime.ActorCluster.WaitForTopic`, `WaitForTopics`, `WaitForAll` and `Call` do not model the waiting itself. Polling a chain that is not all Passive returns `Ok(false)`, meaning the Java loop would sleep and poll again. In a sequential world nothing can change between the polls, so it would keep polling forever.
- `Runtime.ActorCluster.Call` models `operate` only by which messages make it throw (the parameter `fails`). What `operate` does with a message, for example sending to other actors, is left to callers. Whether the thread is interrupted during the run is fixed for the whole run (`threadInterrupted`).
- `generateChildActor` is abstract in the source. It is modelled as `NewChild`, an actor with the parent's topic, priority, strategy and wait list.
- `ActorCluster.getActiveNodeCount()` without arguments returns the constant 0. It is not modelled.
- The iteration order of the router's key set is not fixed by the source, and a put may rehash the map and reorder the old keys. `topicOrder` records the order. `Runtime.ActorCluster.AddRootActor` and `AddRoot` take the whole order after the put as a parameter, which may be any order of the new key and the old ones (`Topics.PutOrder`). The model therefore does not fix the order in which `getAllTopics` lists the topics.
- UUIDs are random in the source. Here the caller passes a number: the cluster's and the router's ids, the arena index of an actor, and the fresh id of the empty message `deq` creates.
- The payload type parameter `T` is fixed to `string`, and `ActorMessage` carries only its id and optional payload.
- JSON conversion (`toJson`/`fromJson`), logging, `System.out`, `System.gc`, the `showInfo` flags, the cache accessors (`getCache`, `getDelayedCache`) and the configuration objects are not modelled.
- The `AutoDivision` strategy, the visual charts, and the older `philosophers.arge.actor` copies of the actor classes are not part of this model. Only `DelayedCache` from that package is.
- `Runtime.ActorCluster.NewActor` requires a strategy whose `queueLimit` is at least 1. With a limit of 0 or less every load forwards to a new child without end (`Division.NonPositiveLimitAlwaysDivides`). The Java program then recurses until the stack overflows, and that failure is not modelled.
- A `NumberBasedDivison` whose `queueLimit` is `null` throws on its first use. This is not modelled: the limit is an `int`.
- `Cache.DelayedCache.Get` does not model soft references. The garbage collector may clear a `SoftReference`, and `get` would then return null for a present key. The model never clears a reference.
- `Cache.DelayedCache.Clean` models the cleaner at one moment `now`. The blocking `take` is modelled only by the records it would release by `now`: the head while its delay `expiryTime - now` (in long arithmetic, `Cache.SubLong`) is not positive. Waiting for a later moment is not modelled.
- `Cache.Insert` places a new record behind every record with the same expiry. The source's `DelayQueue` breaks ties in an unspecified order. Only the multiset of records and the release order are stated.
- `Cache.DelayedCache.Add` takes the current time as the parameter `now` instead of reading the clock.

## Findings

| source | as written | input that shows it | evidently intended | confidence | as-written member | corrected member |
|---|---|---|---|---|---|---|
| actor/src/main/java/philosophers/arge/actor/cache/DelayedCache.java:63 | `expiryTime = now + periodInMillis` wraps in long arithmetic. The wrapped expiry sorts before every other record (line 119), yet its delay (line 114) stays positive, so it is never due and the cleaner never releases anything behind it. | `add("a", v, Long.MAX_VALUE)` and `add("b", w, 10)` at time 1000: at 2000 "b" is due but stays in the cache. | A huge period means "keep for a very long time": the expiry saturates at the largest long, and every due record is released. | high; not executed | Cache.WrappedExpiryStalls | Cache.SaturatedReleasesAllDue |
