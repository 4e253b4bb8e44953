/** The state of Actor objects, kept in an arena indexed by actor id, and the
    specification of what loading, requesting execution and draining do to
    an actor's overflow chain. */
module Chains {
  import opened Base
  import opened Division

  type ActorId = nat

  /** The queue-related fields of one Actor: its topic, priority, division
      strategy, wait list, FIFO queue and its at most one child. */
  datatype ActorData = ActorData(
    topic: string,
    priority: ActorPriority,
    strategy: DivisionStrategy,
    waitList: seq<string>,
    queue: seq<ActorMessage>,
    child: Option<ActorId>)

  /** The scheduling fields of one Actor: its control block (with the status)
      and whether an execution request is outstanding. */
  datatype ActorFlags = ActorFlags(cb: ControlBlock, isNotified: bool)

  type Arena = seq<ActorData>

  /** Children are created after their parent, so child links point forward
      and every chain is acyclic; a child shares its parent's topic and
      strategy; every strategy lets a fresh child accept a message. */
  ghost predicate WellFormed(s: Arena)
  {
    && (forall i :: 0 <= i < |s| && s[i].child.Some? ==> i < s[i].child.value < |s|)
    && (forall i :: 0 <= i < |s| && s[i].child.Some? ==>
          s[s[i].child.value].topic == s[i].topic && s[s[i].child.value].strategy == s[i].strategy)
    && (forall i :: 0 <= i < |s| ==> ValidStrategy(s[i].strategy))
  }

  /** The strategy's condition on this actor's queue. */
  predicate Full(d: ActorData)
  {
    IsConditionValid(d.strategy, |d.queue|)
  }

  /** The actors from `a` down the child links, `a` first. */
  ghost function Chain(s: Arena, a: ActorId): (r: seq<ActorId>)
    requires WellFormed(s) && a < |s|
    ensures |r| >= 1 && r[0] == a
    ensures forall k :: 0 <= k < |r| ==> a <= r[k] < |s|
    decreases |s| - a
  {
    match s[a].child
    case None => [a]
    case Some(c) => [a] + Chain(s, c)
  }

  /** The messages held along the chain from `a`, in chain order. */
  ghost function ChainMessages(s: Arena, a: ActorId): seq<ActorMessage>
    requires WellFormed(s) && a < |s|
    decreases |s| - a
  {
    match s[a].child
    case None => s[a].queue
    case Some(c) => s[a].queue + ChainMessages(s, c)
  }

  /** The sum of the queue lengths of the listed actors. */
  ghost function QueuedCount(s: Arena, ids: seq<ActorId>): nat
    requires forall k :: 0 <= k < |ids| ==> ids[k] < |s|
  {
    if ids == [] then 0 else |s[ids[0]].queue| + QueuedCount(s, ids[1..])
  }

  /** What generateChildActor yields: an actor of the same topic, priority,
      strategy and wait list, with an empty queue and no child. */
  function NewChild(parent: ActorData): ActorData
  {
    parent.(queue := [], child := None)
  }

  /** The flags of a child once initChildActor has run: a non-root Passive
      worker with no outstanding request. */
  function ChildFlags(id: ActorId): ActorFlags
  {
    ActorFlags(ControlBlock(id, Worker, false, Passive), false)
  }

  /** initChildActor on an actor without a child: the new actor is appended
      to the arena and linked in. */
  ghost function AddChild(s: Arena, a: ActorId): (r: Arena)
    requires WellFormed(s) && a < |s| && s[a].child.None?
    ensures WellFormed(r) && |r| == |s| + 1
    ensures r[a].child == Some(|s|) && r[|s|] == NewChild(s[a])
    ensures forall j :: 0 <= j < |s| && j != a ==> r[j] == s[j]
    ensures r[a] == s[a].(child := Some(|s|))
  {
    s[a := s[a].(child := Some(|s|))] + [NewChild(s[a])]
  }

  /** fetchChildActor's effect on the arena. */
  ghost function EnsureChild(s: Arena, a: ActorId): (r: Arena)
    requires WellFormed(s) && a < |s|
    ensures WellFormed(r) && a < |r| && r[a].child.Some?
  {
    if s[a].child.Some? then s else AddChild(s, a)
  }

  /** Where the next message loaded into `a` ends up: the first actor from
      `a` down the chain whose condition does not hold, after creating one
      child at the tail when every actor of the chain is overloaded. */
  ghost function Reach(s: Arena, a: ActorId): (r: (Arena, ActorId))
    requires WellFormed(s) && a < |s|
    ensures WellFormed(r.0) && |s| <= |r.0| <= |s| + 1 && a <= r.1 < |r.0| && !Full(r.0[r.1])
    decreases |s| - a
  {
    if !Full(s[a]) then (s, a)
    else match s[a].child
      case Some(c) => Reach(s, c)
      case None =>
        EmptyQueueAccepts(s[a].strategy);
        (AddChild(s, a), |s|)
  }

  /** The arena after one message is loaded into `a`. */
  ghost function Place(s: Arena, a: ActorId, m: ActorMessage): (r: Arena)
    requires WellFormed(s) && a < |s|
    ensures WellFormed(r) && |s| <= |r| <= |s| + 1
  {
    var p := Reach(s, a);
    p.0[p.1 := p.0[p.1].(queue := p.0[p.1].queue + [m])]
  }

  /** The arena after the messages are loaded into `a` one after another. */
  ghost function PlaceAll(s: Arena, a: ActorId, ms: seq<ActorMessage>): (r: Arena)
    requires WellFormed(s) && a < |s|
    ensures WellFormed(r) && |s| <= |r|
    decreases ms
  {
    if ms == [] then s else PlaceAll(Place(s, a, ms[0]), a, ms[1..])
  }

  /** loadAll's effect: an empty batch still walks the chain (and may create a
      child), a non-empty one is placed message by message. */
  ghost function Loaded(s: Arena, a: ActorId, ms: seq<ActorMessage>): (r: Arena)
    requires WellFormed(s) && a < |s|
    ensures WellFormed(r) && |s| <= |r|
  {
    if ms == [] then Reach(s, a).0 else PlaceAll(s, a, ms)
  }

  /** The arena after every listed actor's queue is emptied. */
  ghost function EmptyQueues(s: Arena, ids: seq<ActorId>): (r: Arena)
    ensures |r| == |s|
    ensures forall j :: 0 <= j < |s| ==> r[j] == if j in ids then s[j].(queue := []) else s[j]
  {
    seq(|s|, j requires 0 <= j < |s| => if j in ids then s[j].(queue := []) else s[j])
  }

  /** The actors terminateActor drains: the whole chain from `a` when
      recursive, otherwise `a` alone. */
  ghost function Terminated(s: Arena, a: ActorId, recursive: bool): (r: seq<ActorId>)
    requires WellFormed(s) && a < |s|
    ensures |r| >= 1 && r[0] == a
    ensures forall k :: 0 <= k < |r| ==> r[k] < |s|
  {
    if recursive then Chain(s, a) else [a]
  }

  /** What terminateActor hands back: the messages of the drained actors,
      in chain order. */
  ghost function Drained(s: Arena, a: ActorId, recursive: bool): seq<ActorMessage>
    requires WellFormed(s) && a < |s|
  {
    if recursive then ChainMessages(s, a) else s[a].queue
  }

  /** The flags after every listed actor is set Passive. */
  ghost function PassiveFlags(f: seq<ActorFlags>, ids: seq<ActorId>): (r: seq<ActorFlags>)
    ensures |r| == |f|
    ensures forall j :: 0 <= j < |f| ==>
      r[j] == if j in ids then f[j].(cb := f[j].cb.(status := Passive)) else f[j]
  {
    seq(|f|, j requires 0 <= j < |f| =>
      if j in ids then f[j].(cb := f[j].cb.(status := Passive)) else f[j])
  }

  /** The flags of actor `j` carry id `j` and the Worker kind. */
  ghost predicate Numbered(f: seq<ActorFlags>)
  {
    forall j :: 0 <= j < |f| ==> f[j].cb.id == j && f[j].cb.kind == Worker
  }

  /** `d` and `f` are `d0` and `f0` after every listed actor's queue was
      emptied and its status set Passive. */
  ghost predicate DrainedState(d0: Arena, f0: seq<ActorFlags>, ids: seq<ActorId>, d: Arena, f: seq<ActorFlags>)
  {
    d == EmptyQueues(d0, ids) && f == PassiveFlags(f0, ids)
  }

  /** sendExecutionRequest on one actor: only a Passive actor without an
      outstanding request is admitted (becomes Active) and marked notified. */
  function Requested(fl: ActorFlags): ActorFlags
  {
    if !fl.isNotified && fl.cb.status == Passive
    then ActorFlags(fl.cb.(status := Active), true)
    else fl
  }

  /** Whether a request on these flags admits the actor, costing one task. */
  predicate Admissible(fl: ActorFlags)
  {
    !fl.isNotified && fl.cb.status == Passive
  }

  /** The flags `f` extended with those of the children created since, up to
      `n` actors. */
  function Extend(f: seq<ActorFlags>, n: nat): (r: seq<ActorFlags>)
    ensures |r| == if n < |f| then |f| else n
    ensures forall j :: 0 <= j < |f| ==> r[j] == f[j]
    ensures forall j :: |f| <= j < |r| ==> r[j] == ChildFlags(j)
    decreases n - |f|
  {
    if n <= |f| then f else Extend(f + [ChildFlags(|f|)], n)
  }

  /** The flags after a request on every listed actor. */
  ghost function RequestAll(f: seq<ActorFlags>, ids: set<ActorId>): (r: seq<ActorFlags>)
    ensures |r| == |f|
    ensures forall j :: 0 <= j < |f| ==> r[j] == if j in ids then Requested(f[j]) else f[j]
  {
    seq(|f|, j requires 0 <= j < |f| => if j in ids then Requested(f[j]) else f[j])
  }

  /** The actors at which the messages `ms` loaded into `a` one after
      another end up, each being where the walk of Reach stops. */
  ghost function PlaceTargets(s: Arena, a: ActorId, ms: seq<ActorMessage>): set<ActorId>
    requires WellFormed(s) && a < |s|
    decreases ms
  {
    if ms == [] then {} else {Reach(s, a).1} + PlaceTargets(Place(s, a, ms[0]), a, ms[1..])
  }

  /** The actors that a send of `ms` into `a` asks to execute: those that
      received a message, or for an empty batch the actor the walk ends at. */
  ghost function SendTargets(s: Arena, a: ActorId, ms: seq<ActorMessage>): set<ActorId>
    requires WellFormed(s) && a < |s|
  {
    if ms == [] then {Reach(s, a).1} else PlaceTargets(s, a, ms)
  }

  /** The number of Active actors among the listed ones. */
  function ActiveCount(f: seq<ActorFlags>, ids: seq<ActorId>): (r: nat)
    requires forall k :: 0 <= k < |ids| ==> ids[k] < |f|
    ensures r <= |ids|
  {
    if ids == [] then 0
    else (if f[ids[0]].cb.status == Active then 1 else 0) + ActiveCount(f, ids[1..])
  }

  /** Every listed actor is Passive. */
  predicate AllPassive(f: seq<ActorFlags>, ids: seq<ActorId>)
    requires forall k :: 0 <= k < |ids| ==> ids[k] < |f|
  {
    forall k :: 0 <= k < |ids| ==> f[ids[k]].cb.status == Passive
  }

  /** The messages `operate` consumes from queue `q` in one run when it throws
      on exactly the messages `fails` marks: the run takes messages in order
      and ends after the first one that throws. */
  function Processed(q: seq<ActorMessage>, fails: ActorMessage -> bool): (r: seq<ActorMessage>)
    ensures |r| <= |q| && r == q[..|r|]
    ensures q != [] ==> r != []
    ensures forall k :: 0 <= k < |r| - 1 ==> !fails(r[k])
    ensures |r| < |q| ==> fails(r[|r| - 1])
  {
    if q == [] then []
    else if fails(q[0]) then [q[0]]
    else [q[0]] + Processed(q[1..], fails)
  }

  /** Part way through a run of `operate` over queue `q`: the messages `p`
      consumed so far are a prefix of `q`, and none of them threw, except the
      last one when the run was `stopped` by it. */
  ghost predicate Consumed(q: seq<ActorMessage>, fails: ActorMessage -> bool, p: seq<ActorMessage>, stopped: bool)
  {
    && |p| <= |q| && p == q[..|p|]
    && (forall k :: 0 <= k < |p| - 1 ==> !fails(p[k]))
    && (stopped <==> (|p| > 0 && fails(p[|p| - 1])))
  }

  /** deq: the head of a non-empty queue and the rest, or a message without
      payload (with the fresh id) and the unchanged empty queue. */
  function Dequeue(q: seq<ActorMessage>, freshId: Uuid): (r: (ActorMessage, seq<ActorMessage>))
    ensures q != [] ==> [r.0] + r.1 == q
    ensures q == [] ==> r.0 == ActorMessage(freshId, None) && r.1 == []
  {
    if q == [] then (ActorMessage(freshId, None), q) else (q[0], q[1..])
  }
}
