/** The actor cluster: its router's registry of root actors per topic, the
    actors themselves (kept in an arena, an actor being its index), the
    execution requests that submit tasks, and the destructive drains. */
module Runtime {
  import opened Base
  import opened Division
  import opened Chains
  import opened ChainLemmas
  import opened Scheduling
  import opened ControlBlockFactory
  import opened Topics

  /** The key under which a permanent cluster termination reports the
      tasks still waiting in the pool. */
  const PoolWaitingQueue: string := "Pool_Waiting_Queue"

  /** A value of the map terminateCluster returns: the messages left in a
      topic's chain, or the pool's backlog of never-run tasks. */
  datatype Leftover = Messages(msgs: seq<ActorMessage>) | PoolBacklog(tasks: seq<nat>)

  /** How a run of `call()` ended: still waiting for the topics of its wait
      list (the source keeps polling), or having handed `processed` to
      `operate`. */
  datatype CallOutcome = Blocked | Ran(processed: seq<ActorMessage>)

  /** The recursion of terminateActor over the chain from `a`, on the
      actors' state: `a` is set Passive, the child's chain (when recursive)
      is terminated, and `a`'s queue followed by the child's messages is
      handed back while `a`'s queue is replaced by an empty one. The arena
      stays well formed and every actor keeps its id and kind. */
  method TerminateChain(s: Arena, f: seq<ActorFlags>, a: ActorId, recursive: bool)
    returns (s': Arena, f': seq<ActorFlags>, msgs: seq<ActorMessage>)
    requires WellFormed(s) && |f| == |s| && a < |s|
    ensures DrainedState(s, f, Terminated(s, a, recursive), s', f')
    ensures msgs == Drained(s, a, recursive)
    ensures WellFormed(s') && |f'| == |s'| == |s|
    ensures Numbered(f) ==> Numbered(f')
    decreases |s| - a
  {
    ghost var ids := if recursive && s[a].child.Some? then Chain(s, s[a].child.value) else [];
    var f1 := f[a := f[a].(cb := f[a].cb.(status := Passive))];
    var s1 := s;
    msgs := s[a].queue;
    if s[a].child.Some? && recursive {
      var rest;
      s1, f1, rest := TerminateChain(s, f1, s[a].child.value, true);
      msgs := msgs + rest;
    } else {
      NothingListed(s, f1);
    }
    TerminatedStep(s, f, a, recursive, ids, s1, f1);
    s', f' := s1[a := s1[a].(queue := [])], f1;
  }

  /** getActiveNodeCount: the number of Active actors along the chain from
      `a`. */
  method GetActiveNodeCount(s: Arena, f: seq<ActorFlags>, a: ActorId) returns (n: nat)
    requires WellFormed(s) && |f| == |s| && a < |s|
    ensures n == ActiveCount(f, Chain(s, a))
    ensures n <= |Chain(s, a)|
  {
    ghost var chain := Chain(s, a);
    n := 0;
    var temp: Option<ActorId> := Some(a);
    ghost var k := 0;
    while temp.Some?
      invariant Walk(s, a, k, temp)
      invariant n + ActiveCount(f, chain[k..]) == ActiveCount(f, chain)
      decreases |chain| - k
    {
      var j := temp.value;
      WalkStep(s, a, k, j);
      ActiveCountStep(f, chain, k);
      if f[j].cb.status == Active {
        n := n + 1;
      }
      temp := s[j].child;
      k := k + 1;
    }
  }

  /** isAllTerminated, the body of one pass of the cluster's
      waitForTermination(topic): whether every actor along the chain from `a`
      is Passive. The whole chain is walked, without stopping early. */
  method IsAllTerminated(s: Arena, f: seq<ActorFlags>, a: ActorId) returns (b: bool)
    requires WellFormed(s) && |f| == |s| && a < |s|
    ensures b == AllPassive(f, Chain(s, a))
  {
    ghost var chain := Chain(s, a);
    b := true;
    var temp: Option<ActorId> := Some(a);
    ghost var k := 0;
    while temp.Some?
      invariant Walk(s, a, k, temp)
      invariant b == AllPassive(f, chain[..k])
      decreases |chain| - k
    {
      var j := temp.value;
      WalkStep(s, a, k, j);
      AllPassiveStep(f, chain, k);
      b := b && f[j].cb.status == Passive;
      temp := s[j].child;
      k := k + 1;
    }
    assert chain[..k] == chain;
  }

  /** The result of terminateCluster: each topic's drain, and on a
      permanent termination the pool's waiting tasks under
      "Pool_Waiting_Queue", which replace a topic of that name. */
  function Assemble(jobs: map<string, seq<ActorMessage>>, isPermanent: bool, backlog: seq<nat>): (r: map<string, Leftover>)
    ensures r.Keys == jobs.Keys + (if isPermanent then {PoolWaitingQueue} else {})
    ensures forall t :: t in jobs && !(isPermanent && t == PoolWaitingQueue) ==> r[t] == Messages(jobs[t])
    ensures isPermanent ==> r[PoolWaitingQueue] == PoolBacklog(backlog)
  {
    var drained := map t | t in jobs :: Messages(jobs[t]);
    if isPermanent then drained[PoolWaitingQueue := PoolBacklog(backlog)] else drained
  }

  /** Every topic of the key order keeps its own jobs in the result,
      unless the pool's entry replaces it. */
  lemma AssembleKeepsJobs(jobs: map<string, seq<ActorMessage>>, isPermanent: bool, backlog: seq<nat>,
                          order: seq<string>)
    requires forall k :: 0 <= k < |order| ==> order[k] in jobs
    ensures forall k :: 0 <= k < |order| && !(isPermanent && order[k] == PoolWaitingQueue) ==>
      Assemble(jobs, isPermanent, backlog)[order[k]] == Messages(jobs[order[k]])
  {
  }

  /** terminateThreadPool after shutdown, on a thread whose interrupt
      status is `threadInterrupted`: `poolIdle` says whether the pool has
      already terminated. If so, awaiting its termination does not wait and
      no task is handed back. Otherwise the wait raises on an interrupted
      thread, clearing its status, and the pool is then shut down at once,
      handing back `backlog`, its never-run tasks (empty when it finished
      during the wait). */
  method TerminateThreadPool(poolIdle: bool, backlog: seq<nat>, threadInterrupted: bool)
    returns (tasks: seq<nat>, stillInterrupted: bool)
    ensures tasks == (if poolIdle then [] else backlog)
    ensures stillInterrupted <==> threadInterrupted && poolIdle
  {
    if !poolIdle {
      return backlog, false;
    }
    return [], threadInterrupted;
  }

  /** The loop of terminateRouter on the actor state: the chain of every
      root, taken in the key order, is terminated recursively and its drain
      is recorded under its topic. */
  method TerminateRoots(s: Arena, f: seq<ActorFlags>, roots: map<string, ActorId>, order: seq<string>)
    returns (s': Arena, f': seq<ActorFlags>, jobs: map<string, seq<ActorMessage>>)
    requires WellFormed(s) && |f| == |s| && Registry(roots, order, |s|)
    ensures RouterDrained(s, f, roots, order, jobs, s', f')
    ensures WellFormed(s') && |f'| == |s'| == |s|
    ensures Numbered(f) ==> Numbered(f')
  {
    s', f', jobs := s, f, map[];
    ghost var rs := RootsOf(roots, order);
    ghost var drains: seq<seq<ActorMessage>> := [];
    RouterProgressStart(s, f, rs, order);
    var i := 0;
    while i < |order|
      invariant RouterProgress(s, f, rs, order, i, s', f', jobs, drains)
      decreases |order| - i
    {
      assert rs[i] == roots[order[i]];
      var s2, f2, msgs := TerminateChain(s', f', roots[order[i]], true);
      RouterProgressStep(s, f, rs, order, i, s', f', jobs, drains, s2, f2, msgs);
      s', f', jobs, drains := s2, f2, jobs[order[i] := msgs], drains + [msgs];
      i := i + 1;
    }
    RouterProgressDone(s, f, rs, order, s', f', jobs, drains);
    RegistryKeys(roots, order, |s|);
  }


  class ActorCluster {
    /** The actors' queue-related fields, indexed by actor. */
    var data: seq<ActorData>
    /** The actors' control blocks and notified flags, indexed by actor. */
    var flags: seq<ActorFlags>
    /** The router's control block. */
    var routerCb: ControlBlock
    /** The router's root actor per topic. */
    var rootActors: map<string, ActorId>
    /** The router's actor count per topic. */
    var actorCountMap: map<string, int>
    /** The order in which the root map iterates its keys. */
    var topicOrder: seq<string>
    /** The cluster's control block. */
    var clusterCb: ControlBlock
    /** The handles of the tasks submitted to the pool, per topic. */
    var futures: map<string, seq<nat>>
    /** The handle the next submitted task receives. */
    var nextTask: nat
    /** The interrupt status of the thread that drives the cluster. */
    var interrupted: bool

    ghost predicate Valid()
      reads this
    {
      && WellFormed(data)
      && |flags| == |data|
      && Numbered(flags)
      && Registry(rootActors, topicOrder, |data|)
      && (forall t :: t in futures ==> forall k :: 0 <= k < |futures[t]| ==> futures[t][k] < nextTask)
    }

    /** The router's and the cluster's registry and control blocks are kept,
        and so is the driving thread's interrupt status. */
    twostate predicate RegistryKept()
      reads this
    {
      && rootActors == old(rootActors) && topicOrder == old(topicOrder)
      && routerCb == old(routerCb) && clusterCb == old(clusterCb)
      && interrupted == old(interrupted)
    }

    /** No task was submitted. */
    twostate predicate TasksKept()
      reads this
    {
      futures == old(futures) && nextTask == old(nextTask)
    }

    /** Everything but the actors' state and the interrupt status is kept. */
    twostate predicate OthersKept()
      reads this
    {
      && rootActors == old(rootActors) && topicOrder == old(topicOrder)
      && actorCountMap == old(actorCountMap)
      && routerCb == old(routerCb) && clusterCb == old(clusterCb)
      && TasksKept()
    }

    /** A cluster with its router: both Active roots, no actors, no topics,
        no tasks. The cluster block has kind Deamon for a daemon cluster. */
    constructor(clusterId: Uuid, routerId: Uuid, isDeamon: bool)
      ensures Valid()
      ensures data == [] && flags == []
      ensures rootActors == map[] && actorCountMap == map[] && topicOrder == []
      ensures futures == map[] && nextTask == 0 && !interrupted
      ensures Some(routerCb) == CreateCb(Router, routerId)
      ensures clusterCb == ControlBlock(clusterId, if isDeamon then Deamon else Cluster, true, Active)
    {
      data := [];
      flags := [];
      routerCb := CreateCb(Router, routerId).value;
      rootActors := map[];
      actorCountMap := map[];
      topicOrder := [];
      clusterCb := ControlBlock(clusterId, if isDeamon then Deamon else Cluster, true, Active);
      futures := map[];
      nextTask := 0;
      interrupted := false;
    }

    /** The actor constructor: a Passive root worker with an empty queue, no
        child and no outstanding request. */
    method NewActor(topic: string, priority: ActorPriority, strategy: DivisionStrategy, waitList: seq<string>)
      returns (a: ActorId)
      requires Valid() && ValidStrategy(strategy)
      modifies this
      ensures Valid()
      ensures a == |old(data)|
      ensures data == old(data) + [ActorData(topic, priority, strategy, waitList, [], None)]
      ensures flags == old(flags) + [ActorFlags(WorkerCb(a), false)]
      ensures actorCountMap == old(actorCountMap) && RegistryKept() && TasksKept()
    {
      a := |data|;
      data := data + [ActorData(topic, priority, strategy, waitList, [], None)];
      flags := flags + [ActorFlags(WorkerCb(a), false)];
    }

    /** incrementActorCount. */
    method IncrementActorCount(topic: string)
      requires Valid()
      modifies this
      ensures Valid()
      ensures actorCountMap == Increment(old(actorCountMap), topic)
      ensures data == old(data) && flags == old(flags) && RegistryKept() && TasksKept()
    {
      if topic in actorCountMap {
        actorCountMap := actorCountMap[topic := actorCountMap[topic] + 1];
      } else {
        actorCountMap := actorCountMap[topic := 1];
      }
    }

    /** isTopicExists: whether the topic has a root actor. */
    predicate IsTopicExists(topic: string)
      reads this
      ensures Valid() ==> (IsTopicExists(topic) <==> topic in GetAllTopics())
    {
      topic in rootActors
    }

    /** getRootActor: the topic's root actor, or none (null) for a topic that
        does not exist. */
    function GetRootActor(topic: string): (r: Option<ActorId>)
      reads this
      ensures r.Some? <==> topic in rootActors
      ensures r.Some? ==> r.value == rootActors[topic]
    {
      if IsTopicExists(topic) then Some(rootActors[topic]) else None
    }

    /** getAllTopics: the keys of the root map in reverse iteration order;
        they are exactly the registered topics, each once. */
    function GetAllTopics(): (r: seq<string>)
      reads this
      requires Valid()
      ensures Distinct(r)
      ensures forall t :: t in r <==> t in rootActors
    {
      AllTopicsExactly(rootActors, topicOrder, |data|);
      Reverse(topicOrder)
    }

    /** addRootActor: a topic that is already registered raises
        OccupiedTopic and nothing changes; otherwise the actor becomes the
        topic's root, the key order becomes `order'` (the put may rehash the
        map, so any order of the new key and the old ones is possible) and
        the topic's count rises by one. */
    method AddRootActor(topic: string, a: ActorId, order': seq<string>) returns (e: Option<Error>)
      requires Valid() && a < |data|
      requires PutOrder(topicOrder, topic, order')
      modifies this
      ensures Valid()
      ensures old(topic in rootActors) ==>
        && e == Some(OccupiedTopic) && rootActors == old(rootActors) && topicOrder == old(topicOrder)
        && actorCountMap == old(actorCountMap)
      ensures old(topic !in rootActors) ==>
        && e == None && rootActors == old(rootActors)[topic := a]
        && topicOrder == order'
        && actorCountMap == Increment(old(actorCountMap), topic)
      ensures data == old(data) && flags == old(flags) && TasksKept()
      ensures routerCb == old(routerCb) && clusterCb == old(clusterCb) && interrupted == old(interrupted)
    {
      if topic in rootActors {
        return Some(OccupiedTopic);
      }
      RegisterKeepsRegistry(rootActors, topicOrder, |data|, topic, a, order');
      rootActors, topicOrder := rootActors[topic := a], order';
      IncrementActorCount(topic);
      e := None;
    }

    /** The cluster's addRootActor: the actor is registered under its own
        topic. */
    method AddRoot(a: ActorId, order': seq<string>) returns (e: Option<Error>)
      requires Valid() && a < |data|
      requires PutOrder(topicOrder, data[a].topic, order')
      modifies this
      ensures Valid()
      ensures e == Some(OccupiedTopic) <==> old(data[a].topic in rootActors)
      ensures e.None? ==>
        && rootActors == old(rootActors)[old(data[a].topic) := a] && topicOrder == order'
        && actorCountMap == Increment(old(actorCountMap), old(data[a].topic))
      ensures e.Some? ==>
        rootActors == old(rootActors) && topicOrder == old(topicOrder) && actorCountMap == old(actorCountMap)
      ensures data == old(data) && flags == old(flags) && TasksKept()
      ensures routerCb == old(routerCb) && clusterCb == old(clusterCb) && interrupted == old(interrupted)
    {
      e := AddRootActor(data[a].topic, a, order');
    }

    /** fetchChildActor: the existing child, or a new child (generated with
        the parent's configuration, then made a non-root Passive worker and
        counted for the topic). */
    method FetchChildActor(a: ActorId) returns (c: ActorId)
      requires Valid() && a < |data|
      modifies this
      ensures Valid()
      ensures data == EnsureChild(old(data), a) && c == data[a].child.value
      ensures Grew(old(flags), old(actorCountMap), |old(data)|, flags, actorCountMap, |data|, old(data[a].topic))
      ensures old(data[a].child).Some? ==> c == old(data[a].child.value) && data == old(data) && flags == old(flags)
      ensures old(data[a].child).None? ==>
        && c == |old(data)| && data[c] == NewChild(old(data[a]))
        && !flags[c].cb.isRoot && flags[c].cb.status == Passive && !flags[c].isNotified
        && actorCountMap[old(data[a].topic)] == CountOf(old(actorCountMap), old(data[a].topic)) + 1
      ensures RegistryKept() && TasksKept()
    {
      if data[a].child.Some? {
        c := data[a].child.value;
        return;
      }
      c := |data|;
      var generated := ActorFlags(WorkerCb(c), false);
      IncrementActorCount(data[a].topic);
      data := data[a := data[a].(child := Some(c))] + [NewChild(data[a])];
      flags := flags + [generated.(cb := generated.cb.(isRoot := false, status := Passive))];
    }

    /** The cluster's executeNode: a Passive actor becomes Active and one
        fresh task handle is recorded under its topic; an Active actor is
        left alone, so nothing is submitted twice. */
    method ExecuteNode(a: ActorId)
      requires Valid() && a < |data|
      modifies this
      ensures Valid()
      ensures old(flags[a].cb.status) == Passive ==>
        && flags == old(flags)[a := old(flags[a]).(cb := old(flags[a].cb).(status := Active))]
        && nextTask == old(nextTask) + 1
        && futures == Issued(old(futures), old(data[a].topic), old(nextTask), nextTask)
      ensures old(flags[a].cb.status) == Active ==> flags == old(flags) && TasksKept()
      ensures forall t :: t in old(futures) ==> t in futures && old(futures[t]) <= futures[t]
      ensures forall t :: t in old(futures) && t != old(data[a].topic) ==> futures[t] == old(futures[t])
      ensures data == old(data) && actorCountMap == old(actorCountMap) && RegistryKept()
    {
      if flags[a].cb.status == Passive {
        flags := flags[a := flags[a].(cb := flags[a].cb.(status := Active))];
        var topic := data[a].topic;
        var handle := nextTask;
        nextTask := nextTask + 1;
        assert Range(handle, nextTask) == [handle];
        if topic in futures {
          futures := futures[topic := futures[topic] + [handle]];
        } else {
          assert Handles(futures, topic) + [handle] == [handle];
          futures := futures[topic := [handle]];
        }
      }
    }

    /** sendExecutionRequest: only an actor that is Passive and not yet
        notified is handed to the cluster, and it is then marked notified. */
    method SendExecutionRequest(a: ActorId)
      requires Valid() && a < |data|
      modifies this
      ensures Valid()
      ensures RequestsIssued(old(flags), old(futures), old(nextTask), flags, futures, nextTask,
                             old(data[a].topic), {a}, |data|)
      ensures data == old(data) && actorCountMap == old(actorCountMap) && RegistryKept()
    {
      ghost var f0 := flags;
      if !flags[a].isNotified && flags[a].cb.status == Passive {
        ExecuteNode(a);
        flags := flags[a := flags[a].(isNotified := true)];
        assert Admitted(f0, {a}) == {a};
      } else {
        assert Admitted(f0, {a}) == {};
      }
      assert flags == RequestAll(f0, {a});
    }

    /** deq: the head of the queue, or a message without payload (carrying
        the fresh id) when the queue is empty. */
    method Deq(a: ActorId, freshId: Uuid) returns (m: ActorMessage)
      requires Valid() && a < |data|
      modifies this
      ensures Valid() && |data| == |old(data)|
      ensures (m, data[a].queue) == Dequeue(old(data[a].queue), freshId)
      ensures data == old(data)[a := old(data[a]).(queue := data[a].queue)]
      ensures flags == old(flags) && actorCountMap == old(actorCountMap) && RegistryKept() && TasksKept()
    {
      if data[a].queue == [] {
        m := ActorMessage(freshId, None);
      } else {
        m := data[a].queue[0];
        data := data[a := data[a].(queue := data[a].queue[1..])];
      }
    }

    /** queue.add on an actor that is not overloaded: the message is appended
        to its own queue, which is where loading would place it. */
    method Enqueue(a: ActorId, m: ActorMessage)
      requires Valid() && a < |data| && !Full(data[a])
      modifies this
      ensures Valid()
      ensures data == old(data)[a := old(data[a]).(queue := old(data[a].queue) + [m])]
      ensures data == Place(old(data), a, m)
      ensures flags == old(flags) && actorCountMap == old(actorCountMap) && RegistryKept() && TasksKept()
    {
      PlaceLocal(data, a, m);
      data := data[a := data[a].(queue := data[a].queue + [m])];
    }

    /** load: a message goes to the local queue unless the division
        condition holds, in which case the strategy takes it. */
    method Load(a: ActorId, m: ActorMessage)
      requires Valid() && a < |data|
      modifies this
      ensures Valid()
      ensures data == Place(old(data), a, m)
      ensures !Full(old(data[a])) ==> data == old(data)[a := old(data[a]).(queue := old(data[a].queue) + [m])]
      ensures Grew(old(flags), old(actorCountMap), |old(data)|, flags, actorCountMap, |data|, old(data[a].topic))
      ensures RegistryKept() && TasksKept()
      decreases 1, 2 * |Chain(data, a)| + (if Full(data[a]) then 1 else 0), 0
    {
      if IsConditionValid(data[a].strategy, |data[a].queue|) {
        ForwardSingle(data, a, m);
        ExecuteLoadingStrategy(a, [m]);
      } else {
        Enqueue(a, m);
      }
    }

    /** loadAll: if the condition holds at entry the whole batch goes to the
        strategy; otherwise the messages are taken in order, the condition
        being checked again before each one. */
    method LoadAll(a: ActorId, ms: seq<ActorMessage>)
      requires Valid() && a < |data|
      modifies this
      ensures Valid()
      ensures data == Loaded(old(data), a, ms)
      ensures Grew(old(flags), old(actorCountMap), |old(data)|, flags, actorCountMap, |data|, old(data[a].topic))
      ensures RegistryKept() && TasksKept()
      decreases |ms|, 2 * |Chain(data, a)| + (if Full(data[a]) then 1 else 0), 1
    {
      ghost var d0 := data;
      ghost var f0 := flags;
      ghost var c0 := actorCountMap;
      ghost var topic := data[a].topic;
      if IsConditionValid(data[a].strategy, |data[a].queue|) {
        ExecuteLoadingStrategy(a, ms);
        FullForward(d0, a, ms);
        return;
      }
      GrewNone(f0, c0, |d0|, topic);
      var i := 0;
      while i < |ms|
        invariant 0 <= i <= |ms|
        invariant Valid() && a < |data| && |d0| <= |data|
        invariant data == PlaceAll(d0, a, ms[..i])
        invariant data[a].topic == topic
        invariant Grew(f0, c0, |d0|, flags, actorCountMap, |data|, topic)
        invariant RegistryKept() && TasksKept()
      {
        ghost var s := data;
        ghost var f1 := flags;
        ghost var c1 := actorCountMap;
        PlaceAllStep(d0, a, ms, i);
        PlaceKeepsTopic(s, a, ms[i]);
        Load(a, ms[i]);
        GrewCompose(f0, c0, |d0|, f1, c1, |s|, flags, actorCountMap, |data|, topic);
        i := i + 1;
      }
      assert ms[..i] == ms;
    }

    /** executeLoadingStrategy: under NumberBasedDivison the batch is loaded
        into the child, created if needed, and the actor's own queue is not
        touched; under NoDivision nothing happens. */
    method ExecuteLoadingStrategy(a: ActorId, ms: seq<ActorMessage>)
      requires Valid() && a < |data|
      modifies this
      ensures Valid()
      ensures old(data[a].strategy) == NoDivision ==>
        data == old(data) && flags == old(flags) && actorCountMap == old(actorCountMap)
      ensures ForwardsToChild(old(data[a].strategy)) ==>
        var s1 := EnsureChild(old(data), a);
        && data == Loaded(s1, s1[a].child.value, ms)
        && data[a].queue == old(data[a].queue)
        && Grew(old(flags), old(actorCountMap), |old(data)|, flags, actorCountMap, |data|, old(data[a].topic))
      ensures RegistryKept() && TasksKept()
      decreases |ms|, 2 * |Chain(data, a)|, 2
    {
      if data[a].strategy.NumberBasedDivison? {
        ghost var d0 := data;
        ghost var f0 := flags;
        ghost var c0 := actorCountMap;
        ChildMeasure(d0, a);
        ChildLoadKeepsParent(d0, a, ms);
        var c := FetchChildActor(a);
        ghost var s1 := data;
        ghost var f1 := flags;
        ghost var c1 := actorCountMap;
        LoadAll(c, ms);
        GrewCompose(f0, c0, |d0|, f1, c1, |s1|, flags, actorCountMap, |data|, d0[a].topic);
      }
    }

    /** sendAll: loadAll, then an execution request for this actor alone, even
        when the messages went down the chain. */
    method SendAll(a: ActorId, ms: seq<ActorMessage>)
      requires Valid() && a < |data|
      modifies this
      ensures Valid()
      ensures data == Loaded(old(data), a, ms)
      ensures SentTo(old(flags), old(futures), old(nextTask), old(actorCountMap), |old(data)|,
                     flags, futures, nextTask, actorCountMap, |data|, old(data[a].topic), {a})
      ensures RegistryKept()
    {
      ghost var d0, f0, fu0, k0, c0 := data, flags, futures, nextTask, actorCountMap;
      LoadAll(a, ms);
      ghost var f1, c1 := flags, actorCountMap;
      LoadedFrame(d0, a, ms);
      SendExecutionRequest(a);
      RequestIsSent(f1, fu0, k0, c1, |data|, flags, futures, nextTask, d0[a].topic, {a});
      GrewThenSent(f0, c0, |d0|, f1, c1, |data|, fu0, k0, flags, futures, nextTask, actorCountMap, |data|,
                   d0[a].topic, {a});
    }

    /** sendByLocking: an overloaded actor hands the message to its strategy;
        otherwise the message is queued here and this actor is requested. */
    method SendByLocking(a: ActorId, m: ActorMessage)
      requires Valid() && a < |data|
      modifies this
      ensures Valid()
      ensures data == Place(old(data), a, m)
      ensures SentTo(old(flags), old(futures), old(nextTask), old(actorCountMap), |old(data)|,
                     flags, futures, nextTask, actorCountMap, |data|, old(data[a].topic),
                     {Reach(old(data), a).1})
      ensures RegistryKept()
    {
      ghost var d0, f0, fu0, k0, c0 := data, flags, futures, nextTask, actorCountMap;
      SendTargetsSingle(d0, a, m);
      if IsConditionValid(data[a].strategy, |data[a].queue|) {
        ForwardSingle(d0, a, m);
        SendTargetsForward(d0, a, [m]);
        ExecuteSendingStrategy(a, [m]);
      } else {
        ReachEffect(d0, a);
        Enqueue(a, m);
        SendExecutionRequest(a);
        RequestIsSent(f0, fu0, k0, c0, |data|, flags, futures, nextTask, d0[a].topic, {a});
      }
    }

    /** sendAllByLocking: if the actor is overloaded at entry the whole batch
        goes to the strategy; otherwise the batch is taken message by message
        and then this actor is requested. */
    method SendAllByLocking(a: ActorId, ms: seq<ActorMessage>)
      requires Valid() && a < |data|
      modifies this
      ensures Valid()
      ensures data == Loaded(old(data), a, ms)
      ensures SentTo(old(flags), old(futures), old(nextTask), old(actorCountMap), |old(data)|,
                     flags, futures, nextTask, actorCountMap, |data|, old(data[a].topic),
                     SendTargets(old(data), a, ms))
      ensures RegistryKept()
      decreases |ms|, 2 * |Chain(data, a)| + (if Full(data[a]) then 1 else 0), 2
    {
      ghost var d0, f0, fu0, k0, c0 := data, flags, futures, nextTask, actorCountMap;
      if IsConditionValid(data[a].strategy, |data[a].queue|) {
        FullForward(d0, a, ms);
        SendTargetsForward(d0, a, ms);
        ExecuteSendingStrategy(a, ms);
        return;
      }
      SendEach(a, ms);
      PlaceAllFrame(d0, a, ms);
      ghost var f1, fu1, k1, c1 := flags, futures, nextTask, actorCountMap;
      SendExecutionRequest(a);
      RequestIsSent(f1, fu1, k1, c1, |data|, flags, futures, nextTask, d0[a].topic, {a});
      SentCompose(f0, fu0, k0, c0, |d0|, f1, fu1, k1, c1, |data|, flags, futures, nextTask, actorCountMap, |data|,
                  d0[a].topic, PlaceTargets(d0, a, ms) - {a}, {a});
      SendTargetsLocal(d0, a, ms);
    }

    /** The forEach of sendAllByLocking: each message in turn is queued here
        or sent on through the strategy; every actor other than this one that
        a message reached has been requested. */
    method SendEach(a: ActorId, ms: seq<ActorMessage>)
      requires Valid() && a < |data|
      modifies this
      ensures Valid()
      ensures data == PlaceAll(old(data), a, ms)
      ensures SentTo(old(flags), old(futures), old(nextTask), old(actorCountMap), |old(data)|,
                     flags, futures, nextTask, actorCountMap, |data|, old(data[a].topic),
                     PlaceTargets(old(data), a, ms) - {a})
      ensures RegistryKept()
      decreases |ms|, 2 * |Chain(data, a)| + (if Full(data[a]) then 1 else 0), 1
    {
      ghost var d0, f0, fu0, k0, c0 := data, flags, futures, nextTask, actorCountMap;
      ghost var topic := data[a].topic;
      SentNone(f0, fu0, k0, c0, |d0|, topic);
      assert PlaceTargets(d0, a, ms[..0]) - {a} == {};
      var i := 0;
      while i < |ms|
        invariant 0 <= i <= |ms|
        invariant Valid() && a < |data|
        invariant data == PlaceAll(d0, a, ms[..i])
        invariant data[a].topic == topic
        invariant SentTo(f0, fu0, k0, c0, |d0|, flags, futures, nextTask, actorCountMap, |data|, topic,
                         PlaceTargets(d0, a, ms[..i]) - {a})
        invariant RegistryKept()
      {
        ghost var s, f1, fu1, k1, c1 := data, flags, futures, nextTask, actorCountMap;
        PlaceAllStep(d0, a, ms, i);
        TargetsBesides(d0, a, ms, i);
        PlaceKeepsTopic(s, a, ms[i]);
        SendOrQueue(a, ms[i]);
        SentCompose(f0, fu0, k0, c0, |d0|, f1, fu1, k1, c1, |s|, flags, futures, nextTask, actorCountMap, |data|,
                    topic, PlaceTargets(d0, a, ms[..i]) - {a}, if Full(s[a]) then {Reach(s, a).1} else {});
        i := i + 1;
      }
      assert ms[..i] == ms;
    }

    /** The body of sendAllByLocking's loop for one message: it is queued
        here unless the actor is overloaded, in which case it is sent on
        through the strategy, which requests the actor it ends up at. */
    method SendOrQueue(a: ActorId, m: ActorMessage)
      requires Valid() && a < |data|
      modifies this
      ensures Valid()
      ensures data == Place(old(data), a, m)
      ensures SentTo(old(flags), old(futures), old(nextTask), old(actorCountMap), |old(data)|,
                     flags, futures, nextTask, actorCountMap, |data|, old(data[a].topic),
                     if Full(old(data[a])) then {Reach(old(data), a).1} else {})
      ensures RegistryKept()
      decreases 1, 2 * |Chain(data, a)| + (if Full(data[a]) then 1 else 0), 0
    {
      if IsConditionValid(data[a].strategy, |data[a].queue|) {
        ForwardSingle(data, a, m);
        SendTargetsForward(data, a, [m]);
        SendTargetsSingle(data, a, m);
        ExecuteSendingStrategy(a, [m]);
      } else {
        SentNone(flags, futures, nextTask, actorCountMap, |data|, data[a].topic);
        Enqueue(a, m);
      }
    }

    /** executeSendingStrategy: under NumberBasedDivison the batch is sent to
        the child, created if needed, and the actor's own queue is not
        touched; under NoDivision nothing happens. */
    method ExecuteSendingStrategy(a: ActorId, ms: seq<ActorMessage>)
      requires Valid() && a < |data|
      modifies this
      ensures Valid()
      ensures old(data[a].strategy) == NoDivision ==>
        data == old(data) && flags == old(flags) && actorCountMap == old(actorCountMap) && TasksKept()
      ensures ForwardsToChild(old(data[a].strategy)) ==>
        var s1 := EnsureChild(old(data), a);
        && data == Loaded(s1, s1[a].child.value, ms)
        && data[a].queue == old(data[a].queue)
        && SentTo(old(flags), old(futures), old(nextTask), old(actorCountMap), |old(data)|,
                  flags, futures, nextTask, actorCountMap, |data|, old(data[a].topic),
                  SendTargets(s1, s1[a].child.value, ms))
      ensures RegistryKept()
      decreases |ms|, 2 * |Chain(data, a)|, 3
    {
      if data[a].strategy.NumberBasedDivison? {
        ghost var d0, f0, fu0, k0, c0 := data, flags, futures, nextTask, actorCountMap;
        ChildMeasure(d0, a);
        ChildLoadKeepsParent(d0, a, ms);
        var c := FetchChildActor(a);
        ghost var s1, f1, c1 := data, flags, actorCountMap;
        SendAllByLocking(c, ms);
        GrewThenSent(f0, c0, |d0|, f1, c1, |s1|, fu0, k0, flags, futures, nextTask, actorCountMap, |data|,
                     d0[a].topic, SendTargets(s1, c, ms));
      }
    }

    /** executeNodeStack: an execution request for every actor of the chain,
        from this actor down to the last child. */
    method ExecuteNodeStack(a: ActorId)
      requires Valid() && a < |data|
      modifies this
      ensures Valid()
      ensures RequestsIssued(old(flags), old(futures), old(nextTask), flags, futures, nextTask,
                             old(data[a].topic), Elems(Chain(old(data), a)), |data|)
      ensures data == old(data) && actorCountMap == old(actorCountMap) && RegistryKept()
    {
      ghost var d0, f0, fu0, k0 := data, flags, futures, nextTask;
      ghost var topic := data[a].topic;
      ghost var chain := Chain(data, a);
      ChainTopic(d0, a);
      NoRequests(f0, fu0, k0, topic, |d0|);
      assert Elems(chain[..0]) == {};
      var temp: Option<ActorId> := Some(a);
      ghost var k := 0;
      while temp.Some?
        invariant Valid() && data == d0 && actorCountMap == old(actorCountMap) && RegistryKept()
        invariant k <= |chain| && (temp.Some? <==> k < |chain|)
        invariant temp.Some? ==> temp.value == chain[k]
        invariant RequestsIssued(f0, fu0, k0, flags, futures, nextTask, topic, Elems(chain[..k]), |d0|)
        decreases |chain| - k
      {
        var j := temp.value;
        ChainStep(d0, a, k);
        ghost var f1, fu1, k1 := flags, futures, nextTask;
        SendExecutionRequest(j);
        ComposeRequests(f0, fu0, k0, f1, fu1, k1, flags, futures, nextTask, topic,
                        Elems(chain[..k]), |d0|, {j}, |d0|);
        ElemsStep(chain, k);
        temp := data[j].child;
        k := k + 1;
      }
      assert chain[..k] == chain;
    }

    /** terminateActor: the calling thread is interrupted, the actor becomes
        Passive and its queue is handed back and replaced by an empty one;
        recursively, the child's chain is terminated first and its messages
        are appended to this queue before it is handed back. An outstanding
        request stays marked. */
    method TerminateActor(a: ActorId, recursive: bool) returns (msgs: seq<ActorMessage>)
      requires Valid() && a < |data|
      modifies this
      ensures Valid()
      ensures DrainedState(old(data), old(flags), Terminated(old(data), a, recursive), data, flags)
      ensures msgs == Drained(old(data), a, recursive)
      ensures interrupted && OthersKept()
    {
      var d, f;
      d, f, msgs := TerminateChain(data, flags, a, recursive);
      data, flags, interrupted := d, f, true;
    }

    /** The cluster's waitForTermination(topic) on a thread whose interrupt
        status is `threadInterrupted`: an unregistered topic raises
        InvalidTopic; otherwise the chain is inspected and the thread sleeps,
        which raises Interrupted (clearing the status) on an interrupted
        thread. Ok(true) is the return once the chain is all Passive; Ok(false)
        stands for the polling loop that never ends, since nothing else runs. */
    method WaitForTopic(topic: string, threadInterrupted: bool) returns (r: Result<bool>, stillInterrupted: bool)
      requires Valid()
      ensures r == Poll(data, flags, rootActors, [topic], threadInterrupted)
      ensures stillInterrupted == (threadInterrupted && r != Err(Interrupted))
    {
      assert [topic][0] == topic && [topic][1..] == [];
      if topic !in rootActors {
        return Err(InvalidTopic), threadInterrupted;
      }
      var allPassive := IsAllTerminated(data, flags, rootActors[topic]);
      if threadInterrupted {
        return Err(Interrupted), false;
      }
      r, stillInterrupted := Ok(allPassive), false;
    }

    /** The router's waitForTermination(list): each topic in turn is waited
        for; an empty list returns at once, and the first topic that raises
        or keeps the caller polling ends the wait. */
    method WaitForTopics(list: seq<string>, threadInterrupted: bool) returns (r: Result<bool>, stillInterrupted: bool)
      requires Valid()
      ensures r == Poll(data, flags, rootActors, list, threadInterrupted)
      ensures stillInterrupted == (threadInterrupted && r != Err(Interrupted))
    {
      if list == [] {
        return Ok(true), threadInterrupted;
      }
      var i := 0;
      while i < |list|
        invariant 0 <= i <= |list|
        invariant Poll(data, flags, rootActors, list, threadInterrupted)
               == Poll(data, flags, rootActors, list[i..], threadInterrupted)
      {
        var one, intr := WaitForTopic(list[i], threadInterrupted);
        assert list[i..][0] == list[i] && list[i..][1..] == list[i + 1..];
        if one != Ok(true) {
          return one, intr;
        }
        i := i + 1;
      }
      r, stillInterrupted := Ok(true), threadInterrupted;
    }

    /** The cluster's waitForTermination(): every registered topic is waited
        for, in the order getAllTopics lists them, on the driving thread. No
        topic is ever reported unregistered, and the wait completes only when
        every registered chain is Passive. */
    method WaitForAll() returns (r: Result<bool>)
      requires Valid()
      modifies this
      ensures Valid()
      ensures r == Poll(data, flags, rootActors, GetAllTopics(), old(interrupted))
      ensures r != Err(InvalidTopic)
      ensures r == Ok(true) ==> forall t :: t in rootActors ==> AllPassive(flags, Chain(data, rootActors[t]))
      ensures interrupted == (old(interrupted) && r != Err(Interrupted))
      ensures data == old(data) && flags == old(flags) && OthersKept()
    {
      var topics := GetAllTopics();
      PollRegistered(data, flags, rootActors, topics, interrupted);
      PollMeaning(data, flags, rootActors, topics, interrupted);
      r, interrupted := WaitForTopics(topics, interrupted);
      forall t | t in rootActors && r == Ok(true)
        ensures AllPassive(flags, Chain(data, rootActors[t]))
      {
        var k :| 0 <= k < |topics| && topics[k] == t;
      }
    }

    /** The loop of terminateRouter: the chain of every registered topic is
        terminated recursively, in the key order, and its drain recorded
        under the topic. Draining a chain interrupts the calling thread. */
    method DrainAllTopics() returns (jobs: map<string, seq<ActorMessage>>)
      requires Valid()
      modifies this
      ensures Valid()
      ensures RouterDrained(old(data), old(flags), old(rootActors), old(topicOrder), jobs, data, flags)
      ensures interrupted == (old(interrupted) || topicOrder != [])
      ensures OthersKept()
    {
      var d, f;
      d, f, jobs := TerminateRoots(data, flags, rootActors, topicOrder);
      data, flags, interrupted := d, f, interrupted || topicOrder != [];
    }

    /** terminateRouter: every topic's chain is drained and its drain
        recorded under the topic; then the registry is cleared and the
        router becomes Passive. */
    method TerminateRouter() returns (jobs: map<string, seq<ActorMessage>>)
      requires Valid()
      modifies this
      ensures Valid()
      ensures RouterDrained(old(data), old(flags), old(rootActors), old(topicOrder), jobs, data, flags)
      ensures rootActors == map[] && actorCountMap == map[] && topicOrder == []
      ensures routerCb == old(routerCb).(status := Passive)
      ensures interrupted == (old(interrupted) || old(topicOrder) != [])
      ensures clusterCb == old(clusterCb) && TasksKept()
    {
      jobs := DrainAllTopics();
      rootActors, actorCountMap, topicOrder, routerCb := map[], map[], [], routerCb.(status := Passive);
    }

    /** terminateTopic: the topic's chain is terminated recursively and its
        drain is returned under the topic's name; the topic stays registered.
        A topic that does not exist has no root, which raises a null
        reference before anything changes. */
    method TerminateTopic(topic: string) returns (r: Result<map<string, seq<ActorMessage>>>)
      requires Valid()
      modifies this
      ensures Valid()
      ensures r.Err? <==> old(topic !in rootActors)
      ensures r.Err? ==> r.error == NullReference && data == old(data) && flags == old(flags)
                         && interrupted == old(interrupted)
      ensures r.Ok? ==>
        && r.value == map[topic := Drained(old(data), old(rootActors[topic]), true)]
        && DrainedState(old(data), old(flags), Chain(old(data), old(rootActors[topic])), data, flags)
        && interrupted
      ensures OthersKept()
    {
      if topic !in rootActors {
        return Err(NullReference);
      }
      ghost var d0 := data;
      var msgs := TerminateActor(rootActors[topic], true);
      assert Terminated(d0, rootActors[topic], true) == Chain(d0, rootActors[topic]);
      r := Ok(map[topic := msgs]);
    }

    /** terminateNodeStack: the actor's own topic is terminated. */
    method TerminateNodeStack(a: ActorId) returns (r: Result<map<string, seq<ActorMessage>>>)
      requires Valid() && a < |data|
      modifies this
      ensures Valid()
      ensures r.Err? <==> old(data[a].topic !in rootActors)
      ensures r.Err? ==> r.error == NullReference && data == old(data) && flags == old(flags)
                         && interrupted == old(interrupted)
      ensures r.Ok? ==>
        && r.value == map[old(data[a].topic) := Drained(old(data), old(rootActors[data[a].topic]), true)]
        && DrainedState(old(data), old(flags), Chain(old(data), old(rootActors[data[a].topic])), data, flags)
        && interrupted
      ensures OthersKept()
    {
      r := TerminateTopic(data[a].topic);
    }

    /** getNodeCount: the length of the topic's chain, or 0 for a topic that
        does not exist. */
    method GetNodeCount(topic: string) returns (n: nat)
      requires Valid()
      ensures topic in rootActors ==> n == |Chain(data, rootActors[topic])| && n >= 1
      ensures topic !in rootActors ==> n == 0
    {
      n := 0;
      var actor := GetRootActor(topic);
      if actor.None? {
        return;
      }
      ghost var chain := Chain(data, actor.value);
      ghost var a := actor.value;
      while actor.Some?
        invariant n <= |chain| && (actor.Some? <==> n < |chain|)
        invariant actor.Some? ==> actor.value == chain[n]
        decreases |chain| - n
      {
        ChainStep(data, a, n);
        actor := data[actor.value].child;
        n := n + 1;
      }
    }

    /** The cluster's getActiveNodeCount(topic): the number of Active actors
        along the topic's chain; a topic that does not exist has no root,
        which raises a null reference. */
    method TopicActiveNodeCount(topic: string) returns (r: Result<nat>)
      requires Valid()
      ensures r.Err? <==> topic !in rootActors
      ensures r.Err? ==> r.error == NullReference
      ensures r.Ok? ==> r.value == ActiveCount(flags, Chain(data, rootActors[topic]))
      ensures r.Ok? ==> (r.value == 0 <==> AllPassive(flags, Chain(data, rootActors[topic])))
    {
      var root := GetRootActor(topic);
      if root.None? {
        return Err(NullReference);
      }
      var n := GetActiveNodeCount(data, flags, root.value);
      NoActiveIffAllPassive(flags, Chain(data, root.value));
      r := Ok(n);
    }

    /** The processing loop of call: while the queue is non-empty, the actor
        Active and the thread not interrupted, the head of the queue is
        handed to operate; a message on which operate throws ends the run,
        counted as consumed. */
    method RunQueue(a: ActorId, threadInterrupted: bool, fails: ActorMessage -> bool) returns (p: seq<ActorMessage>)
      requires Valid() && a < |data|
      modifies this
      ensures Valid()
      ensures p == if old(flags[a].cb.status) == Active && !threadInterrupted
                   then Processed(old(data[a].queue), fails) else []
      ensures data == old(data)[a := old(data[a]).(queue := old(data[a].queue)[|p|..])]
      ensures flags == old(flags) && actorCountMap == old(actorCountMap) && RegistryKept() && TasksKept()
    {
      ghost var q0 := data[a].queue;
      ghost var d0 := data;
      p := [];
      var stop := false;
      while !stop && data[a].queue != [] && flags[a].cb.status == Active && !threadInterrupted
        invariant Valid() && |data| == |d0| && flags == old(flags)
        invariant Consumed(q0, fails, p, stop)
        invariant data == d0[a := d0[a].(queue := q0[|p|..])]
        invariant (flags[a].cb.status != Active || threadInterrupted) ==> p == []
        invariant actorCountMap == old(actorCountMap) && RegistryKept() && TasksKept()
        decreases |q0| - |p|, if stop then 0 else 1
      {
        var m := Deq(a, 0);
        assert q0[|p|..][1..] == q0[|p| + 1..];
        ConsumedStep(q0, fails, p);
        p := p + [m];
        stop := fails(m);
      }
      if p != [] {
        ConsumedDone(q0, fails, p, stop);
      }
    }

    /** call, run by a pool thread whose interrupt status is
        `threadInterrupted`, with `fails` telling which messages make operate
        throw. The wait list is waited for first; while the wait would go on
        polling the call does not return. Once the wait has completed the
        queue is processed; a wait that raises skips the processing. At the
        end the actor is Passive and no request is outstanding. */
    method Call(a: ActorId, threadInterrupted: bool, fails: ActorMessage -> bool) returns (out: CallOutcome)
      requires Valid() && a < |data|
      modifies this
      ensures Valid()
      ensures out == Blocked <==>
        Poll(old(data), old(flags), old(rootActors), old(data[a].waitList), threadInterrupted) == Ok(false)
      ensures out == Blocked ==> data == old(data) && flags == old(flags)
      ensures out.Ran? ==>
        out.processed ==
          (if Poll(old(data), old(flags), old(rootActors), old(data[a].waitList), threadInterrupted) == Ok(true)
              && old(flags[a].cb.status) == Active && !threadInterrupted
           then Processed(old(data[a].queue), fails) else [])
      ensures out.Ran? ==>
        && data == old(data)[a := old(data[a]).(queue := old(data[a].queue)[|out.processed|..])]
        && flags == old(flags)[a := ActorFlags(old(flags[a].cb).(status := Passive), false)]
      ensures actorCountMap == old(actorCountMap) && RegistryKept() && TasksKept()
    {
      var w, _ := WaitForTopics(data[a].waitList, threadInterrupted);
      if w == Ok(false) {
        return Blocked;
      }
      var p: seq<ActorMessage> := [];
      if w == Ok(true) {
        p := RunQueue(a, threadInterrupted, fails);
      }
      flags := flags[a := ActorFlags(flags[a].cb.(status := Passive), false)];
      out := Ran(p);
    }

    /** terminateCluster. The short sleep before the router is terminated
        raises on an interrupted thread, clearing its status, and the result
        then stays empty; either way a permanent termination records what
        terminating the pool hands back under "Pool_Waiting_Queue",
        replacing a topic of that name, and the cluster becomes Passive.
        Terminating the router leaves the thread interrupted when there was
        a topic to wait for, unless terminating the pool then clears it. */
    method TerminateCluster(isPermanent: bool, poolIdle: bool, backlog: seq<nat>) returns (result: map<string, Leftover>)
      requires Valid()
      modifies this
      ensures Valid()
      ensures isPermanent ==>
        PoolWaitingQueue in result && result[PoolWaitingQueue] == PoolBacklog(if poolIdle then [] else backlog)
      ensures old(interrupted) ==>
        && !interrupted && data == old(data) && flags == old(flags) && rootActors == old(rootActors)
        && actorCountMap == old(actorCountMap) && topicOrder == old(topicOrder) && routerCb == old(routerCb)
        && result.Keys == (if isPermanent then {PoolWaitingQueue} else {})
      ensures !old(interrupted) ==>
        && result.Keys == old(rootActors).Keys + (if isPermanent then {PoolWaitingQueue} else {})
        && (forall k :: 0 <= k < |old(topicOrder)| && !(isPermanent && old(topicOrder)[k] == PoolWaitingQueue) ==>
              result[old(topicOrder)[k]]
                == Messages(DrainOf(old(data), RootsOf(old(rootActors), old(topicOrder)), k)))
        && DrainedState(old(data), old(flags), ChainsOf(old(data), RootsOf(old(rootActors), old(topicOrder))), data, flags)
        && rootActors == map[] && actorCountMap == map[] && topicOrder == []
        && routerCb == old(routerCb).(status := Passive)
        && interrupted == (old(topicOrder) != [] && !(isPermanent && !poolIdle))
      ensures clusterCb == old(clusterCb).(status := Passive) && TasksKept()
    {
      var jobs: map<string, seq<ActorMessage>> := map[];
      if interrupted {
        interrupted := false;
      } else {
        jobs := TerminateRouter();
      }
      var tasks, still := [], interrupted;
      if isPermanent {
        tasks, still := TerminateThreadPool(poolIdle, backlog, interrupted);
      }
      if !old(interrupted) {
        AssembleKeepsJobs(jobs, isPermanent, tasks, old(topicOrder));
      }
      result := Assemble(jobs, isPermanent, tasks);
      clusterCb, interrupted := clusterCb.(status := Passive), still;
    }
  }
}
