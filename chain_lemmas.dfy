/** Properties of loading, draining and processing along an actor chain. */
module ChainLemmas {
  import opened Base
  import opened Division
  import opened Chains

  /** `s'` is `s` after queues changed and children were appended: topics,
      strategies and existing child links are kept, and a link may only be
      added from an actor without a child to an actor created since. */
  ghost predicate Extends(s: Arena, s': Arena)
  {
    && |s| <= |s'|
    && forall j :: 0 <= j < |s| ==>
         && s'[j].topic == s[j].topic && s'[j].strategy == s[j].strategy
         && (s'[j].child == s[j].child || (s[j].child.None? && s'[j].child.Some? && s'[j].child.value >= |s|))
  }

  lemma ExtendsTransitive(s1: Arena, s2: Arena, s3: Arena)
    requires Extends(s1, s2) && Extends(s2, s3)
    ensures Extends(s1, s3)
  {
  }

  /** A chain only reads the actors from its start on. */
  lemma {:induction false} ChainSuffixFrame(s: Arena, s': Arena, c: ActorId)
    requires WellFormed(s) && WellFormed(s') && c < |s| <= |s'|
    requires forall j :: c <= j < |s| ==> s'[j] == s[j]
    ensures Chain(s', c) == Chain(s, c)
    ensures ChainMessages(s', c) == ChainMessages(s, c)
    decreases |s| - c
  {
    match s[c].child
    case None =>
    case Some(d) => ChainSuffixFrame(s, s', d);
  }

  /** A chain only reads the child links. */
  lemma {:induction false} ChainLinksFrame(s: Arena, s': Arena, c: ActorId)
    requires WellFormed(s) && WellFormed(s') && c < |s| <= |s'|
    requires forall j :: c <= j < |s| ==> s'[j].child == s[j].child
    ensures Chain(s', c) == Chain(s, c)
    decreases |s| - c
  {
    match s[c].child
    case None =>
    case Some(d) => ChainLinksFrame(s, s', d);
  }

  /** Extending an arena extends its chains: the old chain is a prefix of
      the new one and whatever follows it was created since. */
  lemma {:induction false} ChainExtends(s: Arena, s': Arena, a: ActorId)
    requires WellFormed(s) && WellFormed(s') && a < |s| && Extends(s, s')
    ensures |Chain(s, a)| <= |Chain(s', a)|
    ensures Chain(s', a)[..|Chain(s, a)|] == Chain(s, a)
    ensures forall k :: |Chain(s, a)| <= k < |Chain(s', a)| ==> Chain(s', a)[k] >= |s|
    decreases |s| - a
  {
    match s[a].child
    case Some(c) => ChainExtends(s, s', c);
    case None =>
  }

  /** An actor below |s| on the extended chain was on the old chain. */
  lemma OldMemberOfExtendedChain(s: Arena, s': Arena, a: ActorId, j: ActorId)
    requires WellFormed(s) && WellFormed(s') && a < |s| && Extends(s, s')
    requires j < |s| && j in Chain(s', a)
    ensures j in Chain(s, a)
  {
    ChainExtends(s, s', a);
    var k :| 0 <= k < |Chain(s', a)| && Chain(s', a)[k] == j;
    assert k < |Chain(s, a)|;
    assert Chain(s, a)[k] == Chain(s', a)[..|Chain(s, a)|][k];
  }

  /** The walk of Reach: it stops at `a` exactly when `a` is not overloaded,
      touches only actors from `a` on, keeps every queue, and creates at most
      one actor, which is then where it stops. */
  lemma {:induction false} ReachEffect(s: Arena, a: ActorId)
    requires WellFormed(s) && a < |s|
    ensures var (r, t) := Reach(s, a);
      && Extends(s, r)
      && (t == a <==> !Full(s[a]))
      && (!Full(s[a]) ==> r == s)
      && (forall j :: 0 <= j < a ==> r[j] == s[j])
      && (forall j :: 0 <= j < |s| ==> r[j].queue == s[j].queue)
      && (forall j :: 0 <= j < |s| && j !in Chain(s, a) ==> r[j] == s[j])
      && (|r| == |s| + 1 ==> t == |s|)
      && (t == |s| ==> |r| == |s| + 1 && r[t].queue == [])
      && t in Chain(r, a)
    decreases |s| - a
  {
    var (r, t) := Reach(s, a);
    if !Full(s[a]) {
    } else {
      match s[a].child
      case Some(c) =>
        ReachEffect(s, c);
        assert Chain(s, a) == [a] + Chain(s, c);
        assert r[a] == s[a];
        assert Chain(r, a) == [a] + Chain(r, c);
      case None =>
        assert Chain(s, a) == [a];
        assert Chain(r, |s|) == [|s|];
        assert Chain(r, a) == [a] + Chain(r, |s|);
    }
  }

  /** The same for one placed message: exactly the stopping actor receives it. */
  lemma PlaceEffect(s: Arena, a: ActorId, m: ActorMessage)
    requires WellFormed(s) && a < |s|
    ensures Extends(s, Place(s, a, m))
    ensures Reach(s, a).1 < |Place(s, a, m)|
    ensures Place(s, a, m)[Reach(s, a).1].queue ==
      (if Reach(s, a).1 < |s| then s[Reach(s, a).1].queue else []) + [m]
    ensures Reach(s, a).1 == a <==> !Full(s[a])
    ensures forall j :: 0 <= j < |s| && j != Reach(s, a).1 ==> Place(s, a, m)[j].queue == s[j].queue
    ensures forall j :: 0 <= j < a ==> Place(s, a, m)[j] == s[j]
    ensures forall j :: 0 <= j < |s| && j !in Chain(s, a) ==> Place(s, a, m)[j] == s[j]
    ensures |Place(s, a, m)| == |s| + 1 ==> Reach(s, a).1 == |s|
    ensures Reach(s, a).1 in Chain(Place(s, a, m), a)
  {
    ReachEffect(s, a);
    var s' := Reach(s, a).0;
    var t := Reach(s, a).1;
    var r := Place(s, a, m);
    assert r == s'[t := s'[t].(queue := s'[t].queue + [m])];
    PlaceKeepsLinks(s', t, m);
    ChainLinksFrame(s', r, a);
    if t < |s| {
      OldMemberOfExtendedChain(s, s', a, t);
    }
  }

  /** Appending to one queue keeps every link, topic and strategy. */
  lemma PlaceKeepsLinks(s: Arena, t: ActorId, m: ActorMessage)
    requires WellFormed(s) && t < |s|
    ensures var r := s[t := s[t].(queue := s[t].queue + [m])];
      && WellFormed(r)
      && (forall j :: 0 <= j < |s| ==> r[j].child == s[j].child && r[j].topic == s[j].topic && r[j].strategy == s[j].strategy)
  {
  }

  /** Loading into an actor that is not overloaded appends to its own queue
      and changes nothing else. */
  lemma PlaceLocal(s: Arena, a: ActorId, m: ActorMessage)
    requires WellFormed(s) && a < |s| && !Full(s[a])
    ensures Place(s, a, m) == s[a := s[a].(queue := s[a].queue + [m])]
  {
  }

  /** Loading a batch in two parts is loading it at once. */
  lemma {:induction false} PlaceAllAppend(s: Arena, a: ActorId, xs: seq<ActorMessage>, ys: seq<ActorMessage>)
    requires WellFormed(s) && a < |s|
    ensures PlaceAll(s, a, xs + ys) == PlaceAll(PlaceAll(s, a, xs), a, ys)
    decreases xs
  {
    if xs == [] {
      assert xs + ys == ys;
    } else {
      assert (xs + ys)[0] == xs[0];
      assert (xs + ys)[1..] == xs[1..] + ys;
      PlaceAllAppend(Place(s, a, xs[0]), a, xs[1..], ys);
    }
  }

  /** Whether an actor is overloaded depends only on its queue size and
      strategy, and queues only grow under loading: an overloaded actor stays
      overloaded and keeps its queue and child. */
  lemma {:induction false} FullStaysFull(s: Arena, a: ActorId, ms: seq<ActorMessage>)
    requires WellFormed(s) && a < |s| && Full(s[a])
    ensures PlaceAll(s, a, ms)[a].queue == s[a].queue
    ensures ms != [] ==> PlaceAll(s, a, ms)[a].child == EnsureChild(s, a)[a].child
    decreases ms
  {
    if ms != [] {
      PlaceEffect(s, a, ms[0]);
      var s1 := Place(s, a, ms[0]);
      assert s1[a].queue == s[a].queue;
      if ms[1..] != [] {
        FullStaysFull(s1, a, ms[1..]);
      }
      ReachEffect(s, a);
      match s[a].child
      case Some(c) =>
      case None =>
        assert Reach(s, a).1 == |s|;
        assert s1[a].child == Reach(s, a).0[a].child;
    }
  }

  /** Reach from an overloaded actor is Reach from its child, once the child
      exists. */
  lemma ReachForward(s: Arena, a: ActorId)
    requires WellFormed(s) && a < |s| && Full(s[a])
    ensures var s1 := EnsureChild(s, a);
      Reach(s, a) == Reach(s1, s1[a].child.value)
  {
    if s[a].child.None? {
      var s1 := EnsureChild(s, a);
      EmptyQueueAccepts(s[a].strategy);
      assert !Full(s1[|s|]);
    }
  }

  /** executeLoadingStrategy's forwarding agrees with message-by-message
      placement: loading into an overloaded actor is loading into its child. */
  lemma {:induction false} FullForward(s: Arena, a: ActorId, ms: seq<ActorMessage>)
    requires WellFormed(s) && a < |s| && Full(s[a])
    ensures var s1 := EnsureChild(s, a);
      Loaded(s, a, ms) == Loaded(s1, s1[a].child.value, ms)
    decreases ms
  {
    var s1 := EnsureChild(s, a);
    var c := s1[a].child.value;
    ReachForward(s, a);
    if ms != [] {
      var s2 := Place(s, a, ms[0]);
      assert s2 == Place(s1, c, ms[0]);
      PlaceEffect(s1, c, ms[0]);
      assert a < c;
      assert s2[a] == s1[a];
      assert EnsureChild(s2, a) == s2;
      assert Loaded(s, a, ms) == PlaceAll(s2, a, ms[1..]);
      assert Loaded(s1, c, ms) == PlaceAll(s2, c, ms[1..]);
      if ms[1..] != [] {
        FullForward(s2, a, ms[1..]);
      }
    }
  }

  /** Loading keeps every message: the chain holds exactly its old messages
      and the loaded ones. */
  lemma {:induction false} PlaceConserves(s: Arena, a: ActorId, m: ActorMessage)
    requires WellFormed(s) && a < |s|
    ensures multiset(ChainMessages(Place(s, a, m), a)) == multiset(ChainMessages(s, a)) + multiset{m}
    decreases |s| - a
  {
    var r := Place(s, a, m);
    if !Full(s[a]) {
      match s[a].child
      case None =>
      case Some(c) => ChainSuffixFrame(s, r, c);
    } else {
      match s[a].child
      case Some(c) =>
        PlaceConserves(s, c, m);
        PlaceEffect(s, c, m);
        assert r == Place(s, c, m);
        assert r[a] == s[a];
      case None =>
        assert r[a].child == Some(|s|);
        assert r[|s|].queue == [m] && r[|s|].child.None?;
    }
  }

  lemma {:induction false} PlaceAllConserves(s: Arena, a: ActorId, ms: seq<ActorMessage>)
    requires WellFormed(s) && a < |s|
    ensures multiset(ChainMessages(PlaceAll(s, a, ms), a)) == multiset(ChainMessages(s, a)) + multiset(ms)
    decreases ms
  {
    if ms != [] {
      PlaceConserves(s, a, ms[0]);
      PlaceAllConserves(Place(s, a, ms[0]), a, ms[1..]);
      assert ms == [ms[0]] + ms[1..];
    }
  }

  /** Walking the chain without a message keeps its messages. */
  lemma {:induction false} ReachConserves(s: Arena, a: ActorId)
    requires WellFormed(s) && a < |s|
    ensures ChainMessages(Reach(s, a).0, a) == ChainMessages(s, a)
    decreases |s| - a
  {
    if Full(s[a]) {
      match s[a].child
      case Some(c) =>
        ReachConserves(s, c);
        ReachEffect(s, c);
        assert Reach(s, a).0[a] == s[a];
      case None =>
        var r := Reach(s, a).0;
        assert r[|s|].queue == [] && r[|s|].child.None?;
    }
  }

  /** loadAll loses and duplicates nothing: the chain from `a` ends up holding
      its old messages and the batch. */
  lemma LoadedConserves(s: Arena, a: ActorId, ms: seq<ActorMessage>)
    requires WellFormed(s) && a < |s|
    ensures multiset(ChainMessages(Loaded(s, a, ms), a)) == multiset(ChainMessages(s, a)) + multiset(ms)
  {
    if ms == [] {
      ReachConserves(s, a);
    } else {
      PlaceAllConserves(s, a, ms);
    }
  }

  /** loadAll changes no actor off the chain from `a`, and keeps the arena
      an extension of the old one. */
  lemma {:induction false} PlaceAllFrame(s: Arena, a: ActorId, ms: seq<ActorMessage>)
    requires WellFormed(s) && a < |s|
    ensures Extends(s, PlaceAll(s, a, ms))
    ensures forall j :: 0 <= j < |s| && j !in Chain(s, a) ==> PlaceAll(s, a, ms)[j] == s[j]
    decreases ms
  {
    if ms != [] {
      var s1 := Place(s, a, ms[0]);
      PlaceEffect(s, a, ms[0]);
      PlaceAllFrame(s1, a, ms[1..]);
      var r := PlaceAll(s, a, ms);
      ExtendsTransitive(s, s1, r);
      forall j | 0 <= j < |s| && j !in Chain(s, a)
        ensures r[j] == s[j]
      {
        if j in Chain(s1, a) {
          OldMemberOfExtendedChain(s, s1, a, j);
        }
      }
    }
  }

  lemma LoadedFrame(s: Arena, a: ActorId, ms: seq<ActorMessage>)
    requires WellFormed(s) && a < |s|
    ensures Extends(s, Loaded(s, a, ms))
    ensures forall j :: 0 <= j < |s| && j !in Chain(s, a) ==> Loaded(s, a, ms)[j] == s[j]
  {
    if ms == [] {
      ReachEffect(s, a);
    } else {
      PlaceAllFrame(s, a, ms);
    }
  }

  /** Under NoDivision every message of the batch is appended to the actor's
      own queue, in order, and no child is created. */
  lemma {:induction false} NoDivisionKeepsLocal(s: Arena, a: ActorId, ms: seq<ActorMessage>)
    requires WellFormed(s) && a < |s| && s[a].strategy == NoDivision
    ensures Loaded(s, a, ms) == s[a := s[a].(queue := s[a].queue + ms)]
  {
    if ms == [] {
      assert Reach(s, a) == (s, a);
      assert s[a].queue + ms == s[a].queue;
      assert s[a := s[a]] == s;
    } else {
      NoDivisionPlacesLocally(s, a, ms);
    }
  }

  /** Placing messages one by one under NoDivision appends them to the
      actor's own queue. */
  lemma {:induction false} NoDivisionPlacesLocally(s: Arena, a: ActorId, ms: seq<ActorMessage>)
    requires WellFormed(s) && a < |s| && s[a].strategy == NoDivision
    ensures PlaceAll(s, a, ms) == s[a := s[a].(queue := s[a].queue + ms)]
    decreases ms
  {
    if ms == [] {
      assert s[a].queue + ms == s[a].queue;
      assert s[a := s[a]] == s;
    } else {
      assert Reach(s, a) == (s, a);
      var s1 := Place(s, a, ms[0]);
      assert s1 == s[a := s[a].(queue := s[a].queue + [ms[0]])];
      NoDivisionPlacesLocally(s1, a, ms[1..]);
      assert s1[a].queue + ms[1..] == s[a].queue + ms;
    }
  }

  /** With a limit L >= 1 an actor whose queue holds at most L messages never
      holds more than L after a load, wherever the messages go. */
  lemma {:induction false} LimitBoundsQueue(s: Arena, a: ActorId, ms: seq<ActorMessage>)
    requires WellFormed(s) && a < |s| && s[a].strategy.NumberBasedDivison?
    requires |s[a].queue| <= s[a].strategy.queueLimit
    ensures |Loaded(s, a, ms)[a].queue| <= s[a].strategy.queueLimit
    decreases ms
  {
    if ms == [] {
      ReachEffect(s, a);
    } else {
      var s1 := Place(s, a, ms[0]);
      PlaceEffect(s, a, ms[0]);
      assert s1[a].strategy == s[a].strategy;
      assert Loaded(s, a, ms) == PlaceAll(s1, a, ms[1..]);
      if ms[1..] == [] {
        assert PlaceAll(s1, a, ms[1..]) == s1;
      } else {
        LimitBoundsQueue(s1, a, ms[1..]);
      }
    }
  }

  /** Loading L + 1 messages into a fresh actor with limit L >= 1 keeps the
      first L locally and puts the last one into one newly created child. */
  lemma ThresholdSplit(s: Arena, a: ActorId, ms: seq<ActorMessage>)
    requires WellFormed(s) && a < |s| && s[a].strategy.NumberBasedDivison?
    requires s[a].queue == [] && s[a].child.None?
    requires |ms| == s[a].strategy.queueLimit + 1
    ensures var r := Loaded(s, a, ms);
      && |r| == |s| + 1
      && r[a] == s[a].(queue := ms[..|ms| - 1], child := Some(|s|))
      && r[|s|] == NewChild(s[a]).(queue := [ms[|ms| - 1]])
      && forall j :: 0 <= j < |s| && j != a ==> r[j] == s[j]
  {
    var n := |ms| - 1;
    LocalPrefix(s, a, ms, n);
    PlaceAllAppend(s, a, ms[..n], [ms[n]]);
    assert ms[..n] + [ms[n]] == ms;
    var s1 := PlaceAll(s, a, ms[..n]);
    assert Full(s1[a]);
    assert Reach(s1, a).1 == |s|;
  }

  /** Below the limit, loading into a fresh actor keeps every message local. */
  lemma {:induction false} LocalPrefix(s: Arena, a: ActorId, ms: seq<ActorMessage>, k: nat)
    requires WellFormed(s) && a < |s| && s[a].strategy.NumberBasedDivison?
    requires s[a].queue == []
    requires k <= |ms| && k <= s[a].strategy.queueLimit
    ensures PlaceAll(s, a, ms[..k]) == s[a := s[a].(queue := ms[..k])]
  {
    if k > 0 {
      LocalPrefix(s, a, ms, k - 1);
      PlaceAllAppend(s, a, ms[..k - 1], [ms[k - 1]]);
      assert ms[..k - 1] + [ms[k - 1]] == ms[..k];
      var s1 := PlaceAll(s, a, ms[..k - 1]);
      assert !Full(s1[a]);
      assert Place(s1, a, ms[k - 1]) == s1[a := s1[a].(queue := ms[..k - 1] + [ms[k - 1]])];
    }
  }

  /** Draining returns as many messages as the chain's queues hold. */
  lemma {:induction false} DrainCount(s: Arena, a: ActorId)
    requires WellFormed(s) && a < |s|
    ensures |ChainMessages(s, a)| == QueuedCount(s, Chain(s, a))
    decreases |s| - a
  {
    match s[a].child
    case None =>
      assert Chain(s, a)[1..] == [];
    case Some(c) =>
      DrainCount(s, c);
      assert Chain(s, a)[1..] == Chain(s, c);
  }

  /** Emptying queues keeps the arena well formed and its chains. */
  lemma {:induction false} EmptyQueuesKeepsChain(s: Arena, ids: seq<ActorId>, a: ActorId)
    requires WellFormed(s) && a < |s|
    ensures WellFormed(EmptyQueues(s, ids))
    ensures Chain(EmptyQueues(s, ids), a) == Chain(s, a)
    decreases |s| - a
  {
    var r := EmptyQueues(s, ids);
    assert forall j :: 0 <= j < |s| ==> r[j].child == s[j].child && r[j].topic == s[j].topic && r[j].strategy == s[j].strategy;
    match s[a].child
    case None =>
    case Some(c) => EmptyQueuesKeepsChain(s, ids, c);
  }

  /** Once its chain is drained, an actor's chain holds no messages: a second
      drain returns nothing. */
  lemma {:induction false} DrainedChainIsEmpty(s: Arena, ids: seq<ActorId>, a: ActorId)
    requires WellFormed(s) && a < |s|
    requires forall k :: 0 <= k < |Chain(s, a)| ==> Chain(s, a)[k] in ids
    ensures WellFormed(EmptyQueues(s, ids))
    ensures ChainMessages(EmptyQueues(s, ids), a) == []
    decreases |s| - a
  {
    EmptyQueuesKeepsChain(s, ids, a);
    assert Chain(s, a)[0] == a;
    match s[a].child
    case None =>
    case Some(c) =>
      assert forall k :: 0 <= k < |Chain(s, c)| ==> Chain(s, c)[k] == Chain(s, a)[k + 1];
      DrainedChainIsEmpty(s, ids, c);
  }

  /** No Active actor is counted exactly when all are Passive. */
  lemma {:induction false} NoActiveIffAllPassive(f: seq<ActorFlags>, ids: seq<ActorId>)
    requires forall k :: 0 <= k < |ids| ==> ids[k] < |f|
    ensures ActiveCount(f, ids) == 0 <==> AllPassive(f, ids)
  {
    if ids != [] {
      NoActiveIffAllPassive(f, ids[1..]);
      assert forall k :: 1 <= k < |ids| ==> ids[k] == ids[1..][k - 1];
    }
  }

  /** When no message makes `operate` throw, a run hands it every queued
      message in queue order. */
  lemma {:induction false} ProcessedInOrder(q: seq<ActorMessage>, fails: ActorMessage -> bool)
    requires forall k :: 0 <= k < |q| ==> !fails(q[k])
    ensures Processed(q, fails) == q
  {
    if q != [] {
      ProcessedInOrder(q[1..], fails);
    }
  }

  /** Dequeuing after appending a message to a non-empty queue takes the old
      head: queues are first in, first out. */
  lemma DequeueAfterEnqueue(q: seq<ActorMessage>, m: ActorMessage, freshId: Uuid)
    requires q != []
    ensures Dequeue(q + [m], freshId) == (q[0], q[1..] + [m])
  {
    assert (q + [m])[1..] == q[1..] + [m];
  }

  /** Dequeuing every message of a queue yields them in the order they were
      enqueued, then messages without payload. */
  lemma {:induction false} DequeueAllInOrder(q: seq<ActorMessage>, freshId: Uuid, k: nat)
    requires k < |q|
    ensures DequeueN(q, freshId, k).0 == q[k]
  {
    if k > 0 {
      DequeueAllInOrder(q[1..], freshId, k - 1);
    }
  }

  /** The message the (k+1)-th deq returns, and the queue left behind. */
  function DequeueN(q: seq<ActorMessage>, freshId: Uuid, k: nat): (ActorMessage, seq<ActorMessage>)
  {
    var (m, rest) := Dequeue(q, freshId);
    if k == 0 then (m, rest) else DequeueN(rest, freshId, k - 1)
  }
  /** Every actor of a chain shares the topic and strategy of its first. */
  lemma {:induction false} ChainTopic(s: Arena, a: ActorId)
    requires WellFormed(s) && a < |s|
    ensures forall k :: 0 <= k < |Chain(s, a)| ==>
      s[Chain(s, a)[k]].topic == s[a].topic && s[Chain(s, a)[k]].strategy == s[a].strategy
    decreases |s| - a
  {
    match s[a].child
    case None =>
    case Some(c) =>
      ChainTopic(s, c);
      assert forall k :: 1 <= k < |Chain(s, a)| ==> Chain(s, a)[k] == Chain(s, c)[k - 1];
  }

  /** The targets of a batch loaded in two parts are those of each part. */
  lemma {:induction false} PlaceTargetsAppend(s: Arena, a: ActorId, xs: seq<ActorMessage>, ys: seq<ActorMessage>)
    requires WellFormed(s) && a < |s|
    ensures PlaceTargets(s, a, xs + ys) == PlaceTargets(s, a, xs) + PlaceTargets(PlaceAll(s, a, xs), a, ys)
    decreases xs
  {
    if xs == [] {
      assert xs + ys == ys;
    } else {
      assert (xs + ys)[0] == xs[0];
      assert (xs + ys)[1..] == xs[1..] + ys;
      PlaceTargetsAppend(Place(s, a, xs[0]), a, xs[1..], ys);
    }
  }

  /** Every target is an actor of the arena after the load. */
  lemma {:induction false} PlaceTargetsBound(s: Arena, a: ActorId, ms: seq<ActorMessage>)
    requires WellFormed(s) && a < |s|
    ensures forall j :: j in PlaceTargets(s, a, ms) ==> j < |PlaceAll(s, a, ms)|
    decreases ms
  {
    if ms != [] {
      PlaceEffect(s, a, ms[0]);
      PlaceTargetsBound(Place(s, a, ms[0]), a, ms[1..]);
    }
  }

  lemma SendTargetsBound(s: Arena, a: ActorId, ms: seq<ActorMessage>)
    requires WellFormed(s) && a < |s|
    ensures forall j :: j in SendTargets(s, a, ms) ==> j < |Loaded(s, a, ms)|
  {
    if ms != [] {
      PlaceTargetsBound(s, a, ms);
    }
  }

  /** Sending into an overloaded actor reaches the same actors as sending
      into its child. */
  lemma {:induction false} PlaceTargetsForward(s: Arena, a: ActorId, ms: seq<ActorMessage>)
    requires WellFormed(s) && a < |s| && Full(s[a])
    ensures var s1 := EnsureChild(s, a);
      PlaceTargets(s, a, ms) == PlaceTargets(s1, s1[a].child.value, ms)
    decreases ms
  {
    var s1 := EnsureChild(s, a);
    var c := s1[a].child.value;
    ReachForward(s, a);
    if ms != [] {
      var s2 := Place(s, a, ms[0]);
      assert s2 == Place(s1, c, ms[0]);
      PlaceEffect(s1, c, ms[0]);
      assert a < c;
      assert s2[a] == s1[a];
      assert EnsureChild(s2, a) == s2;
      if ms[1..] != [] {
        PlaceTargetsForward(s2, a, ms[1..]);
      }
    }
  }

  lemma SendTargetsForward(s: Arena, a: ActorId, ms: seq<ActorMessage>)
    requires WellFormed(s) && a < |s| && Full(s[a])
    ensures var s1 := EnsureChild(s, a);
      SendTargets(s, a, ms) == SendTargets(s1, s1[a].child.value, ms)
  {
    ReachForward(s, a);
    PlaceTargetsForward(s, a, ms);
  }

  /** Draining the actors `xs` and then the actors `ys` is draining
      `xs + ys`. */
  lemma DrainedCompose(d0: Arena, f0: seq<ActorFlags>, xs: seq<ActorId>, d1: Arena, f1: seq<ActorFlags>,
                       ys: seq<ActorId>, d2: Arena, f2: seq<ActorFlags>)
    requires DrainedState(d0, f0, xs, d1, f1) && DrainedState(d1, f1, ys, d2, f2)
    ensures DrainedState(d0, f0, xs + ys, d2, f2)
  {
    assert forall j :: 0 <= j < |d0| ==> d2[j] == EmptyQueues(d0, xs + ys)[j];
    assert forall j :: 0 <= j < |f0| ==> f2[j] == PassiveFlags(f0, xs + ys)[j];
  }

  /** Loading a single message is placing it. */
  lemma LoadedSingle(s: Arena, a: ActorId, m: ActorMessage)
    requires WellFormed(s) && a < |s|
    ensures Loaded(s, a, [m]) == Place(s, a, m)
  {
    assert [m][0] == m && [m][1..] == [];
    assert PlaceAll(Place(s, a, m), a, []) == Place(s, a, m);
  }

  /** A single message forwarded by an overloaded actor to its child lands
      where placing it into the actor would. */
  lemma ForwardSingle(s: Arena, a: ActorId, m: ActorMessage)
    requires WellFormed(s) && a < |s| && Full(s[a])
    ensures var s1 := EnsureChild(s, a);
      Loaded(s1, s1[a].child.value, [m]) == Place(s, a, m)
  {
    FullForward(s, a, [m]);
    LoadedSingle(s, a, m);
  }

  /** Loading keeps the actor loaded into, with its topic. */
  lemma PlaceKeepsTopic(s: Arena, a: ActorId, m: ActorMessage)
    requires WellFormed(s) && a < |s|
    ensures Place(s, a, m)[a].topic == s[a].topic
  {
    PlaceEffect(s, a, m);
  }

  /** One more message of the batch, placed into `a`. */
  lemma PlaceAllStep(s: Arena, a: ActorId, ms: seq<ActorMessage>, i: nat)
    requires WellFormed(s) && a < |s| && i < |ms|
    ensures PlaceAll(s, a, ms[..i + 1]) == Place(PlaceAll(s, a, ms[..i]), a, ms[i])
  {
    PlaceAllAppend(s, a, ms[..i], [ms[i]]);
    assert ms[..i + 1] == ms[..i] + [ms[i]];
    LoadedSingle(PlaceAll(s, a, ms[..i]), a, ms[i]);
  }

  /** The chain measure that bounds forwarding: the child's chain is shorter,
      or it is a fresh child that is not overloaded. */
  lemma ChildMeasure(s: Arena, a: ActorId)
    requires WellFormed(s) && a < |s|
    ensures var s1 := EnsureChild(s, a); var c := s1[a].child.value;
      && 2 * |Chain(s1, c)| + (if Full(s1[c]) then 1 else 0) < 2 * |Chain(s, a)| + 1
      && (s[a].child.None? ==> !Full(s1[c]) && |Chain(s1, c)| == |Chain(s, a)|)
      && s1[c].topic == s[a].topic && s1[c].strategy == s[a].strategy
  {
    var s1 := EnsureChild(s, a);
    var c := s1[a].child.value;
    if s[a].child.Some? {
      assert Chain(s, a) == [a] + Chain(s, c);
    } else {
      EmptyQueueAccepts(s1[c].strategy);
      assert Chain(s1, c) == [c];
      assert Chain(s, a) == [a];
    }
  }

  /** Loading into the child leaves the parent's queue, topic and strategy
      as they were. */
  lemma ChildLoadKeepsParent(s: Arena, a: ActorId, ms: seq<ActorMessage>)
    requires WellFormed(s) && a < |s|
    ensures var s1 := EnsureChild(s, a); var r := Loaded(s1, s1[a].child.value, ms);
      && |s| <= |s1| <= |r| && a < |r|
      && r[a].queue == s[a].queue && r[a].topic == s[a].topic && r[a].strategy == s[a].strategy
  {
    var s1 := EnsureChild(s, a);
    var c := s1[a].child.value;
    LoadedFrame(s1, c, ms);
  }

  /** One more message of the batch adds the actor it reaches to the targets. */
  lemma PlaceTargetsStep(s: Arena, a: ActorId, ms: seq<ActorMessage>, i: nat)
    requires WellFormed(s) && a < |s| && i < |ms|
    ensures PlaceTargets(s, a, ms[..i + 1])
         == PlaceTargets(s, a, ms[..i]) + {Reach(PlaceAll(s, a, ms[..i]), a).1}
  {
    assert ms[..i + 1] == ms[..i] + [ms[i]];
    PlaceTargetsAppend(s, a, ms[..i], [ms[i]]);
    var s' := PlaceAll(s, a, ms[..i]);
    assert PlaceTargets(s', a, [ms[i]]) == {Reach(s', a).1} + PlaceTargets(Place(s', a, ms[i]), a, []);
  }

  /** A single message reaches one actor. */
  lemma SendTargetsSingle(s: Arena, a: ActorId, m: ActorMessage)
    requires WellFormed(s) && a < |s|
    ensures SendTargets(s, a, [m]) == {Reach(s, a).1}
  {
    assert [m][0] == m && [m][1..] == [];
    assert PlaceTargets(Place(s, a, m), a, []) == {};
    assert PlaceTargets(s, a, [m]) == {Reach(s, a).1} + PlaceTargets(Place(s, a, m), a, []);
  }

  /** The walk from an overloaded actor always ends further down the chain. */
  lemma FullMovesOn(s: Arena, a: ActorId)
    requires WellFormed(s) && a < |s| && Full(s[a])
    ensures Reach(s, a).1 != a
  {
    ReachEffect(s, a);
  }

  /** Sending into an actor that is not overloaded reaches the actor itself
      and the targets of its messages. */
  lemma SendTargetsLocal(s: Arena, a: ActorId, ms: seq<ActorMessage>)
    requires WellFormed(s) && a < |s| && !Full(s[a])
    ensures SendTargets(s, a, ms) == (PlaceTargets(s, a, ms) - {a}) + {a}
  {
    ReachEffect(s, a);
  }

  /** The targets other than `a` after one more message: the message queued
      at `a` adds none, one sent on adds where it ends up. */
  lemma TargetsBesides(s: Arena, a: ActorId, ms: seq<ActorMessage>, i: nat)
    requires WellFormed(s) && a < |s| && i < |ms|
    ensures var s' := PlaceAll(s, a, ms[..i]);
      PlaceTargets(s, a, ms[..i + 1]) - {a}
        == (PlaceTargets(s, a, ms[..i]) - {a}) + (if Full(s'[a]) then {Reach(s', a).1} else {})
  {
    var s' := PlaceAll(s, a, ms[..i]);
    PlaceTargetsStep(s, a, ms, i);
    ReachEffect(s', a);
  }

  /** Following the child link of the k-th actor of a chain gives the next
      one, and the last actor has no child. */
  lemma {:induction false} ChainStep(s: Arena, a: ActorId, k: nat)
    requires WellFormed(s) && a < |s| && k < |Chain(s, a)|
    ensures s[Chain(s, a)[k]].child.Some? <==> k + 1 < |Chain(s, a)|
    ensures k + 1 < |Chain(s, a)| ==> s[Chain(s, a)[k]].child.value == Chain(s, a)[k + 1]
    decreases |s| - a
  {
    match s[a].child
    case None =>
    case Some(c) =>
      if k > 0 {
        ChainStep(s, c, k - 1);
      }
  }

  /** A walk along the chain from `a` that has passed `k` actors: `temp`
      is the next actor, or none once the chain is done. */
  ghost predicate Walk(s: Arena, a: ActorId, k: nat, temp: Option<ActorId>)
    requires WellFormed(s) && a < |s|
  {
    && k <= |Chain(s, a)| && (temp.Some? <==> k < |Chain(s, a)|)
    && (temp.Some? ==> temp.value == Chain(s, a)[k])
  }

  /** Following the child link moves the walk one actor on. */
  lemma WalkStep(s: Arena, a: ActorId, k: nat, j: ActorId)
    requires WellFormed(s) && a < |s| && Walk(s, a, k, Some(j))
    ensures j < |s| && Walk(s, a, k + 1, s[j].child)
  {
    ChainStep(s, a, k);
  }

  /** Counting the Active actors of a suffix takes its first actor off. */
  lemma ActiveCountStep(f: seq<ActorFlags>, ids: seq<ActorId>, k: nat)
    requires k < |ids| && forall i :: 0 <= i < |ids| ==> ids[i] < |f|
    ensures ActiveCount(f, ids[k..])
      == (if f[ids[k]].cb.status == Active then 1 else 0) + ActiveCount(f, ids[k + 1..])
  {
    assert ids[k..][1..] == ids[k + 1..];
  }

  /** Whether a prefix one longer is all Passive. */
  lemma AllPassiveStep(f: seq<ActorFlags>, ids: seq<ActorId>, k: nat)
    requires k < |ids| && forall i :: 0 <= i < |ids| ==> ids[i] < |f|
    ensures AllPassive(f, ids[..k + 1]) == (AllPassive(f, ids[..k]) && f[ids[k]].cb.status == Passive)
  {
    assert ids[..k + 1] == ids[..k] + [ids[k]];
  }

  /** A prefix of the queue is what one run of `operate` consumes exactly
      when no message before its last throws, and either it is the whole
      queue or its last message throws. */
  lemma {:induction false} ProcessedUnique(q: seq<ActorMessage>, fails: ActorMessage -> bool, n: nat)
    requires n <= |q|
    requires forall k :: 0 <= k < n - 1 ==> !fails(q[k])
    requires n == |q| || (n > 0 && fails(q[n - 1]))
    ensures Processed(q, fails) == q[..n]
  {
    if q != [] {
      if fails(q[0]) {
        assert n == 1;
      } else {
        assert n > 0;
        assert forall k :: 0 <= k < n - 2 ==> q[1..][k] == q[k + 1];
        ProcessedUnique(q[1..], fails, n - 1);
        assert q[..n] == [q[0]] + q[1..][..n - 1];
      }
    }
  }

  /** Handing the next queued message to `operate` continues a run that
      has not stopped. */
  lemma ConsumedStep(q: seq<ActorMessage>, fails: ActorMessage -> bool, p: seq<ActorMessage>)
    requires Consumed(q, fails, p, false) && |p| < |q|
    ensures Consumed(q, fails, p + [q[|p|]], fails(q[|p|]))
  {
    assert q[..|p| + 1] == q[..|p|] + [q[|p|]];
  }

  /** A run that stopped on a throwing message, or consumed the whole queue,
      consumed exactly what `Processed` says. */
  lemma ConsumedDone(q: seq<ActorMessage>, fails: ActorMessage -> bool, p: seq<ActorMessage>, stopped: bool)
    requires Consumed(q, fails, p, stopped) && (stopped || |p| == |q|)
    ensures p == Processed(q, fails)
  {
    forall k | 0 <= k < |p| - 1 ensures !fails(q[k]) {
      assert q[k] == p[k];
    }
    ProcessedUnique(q, fails, |p|);
  }

  /** Emptying one more actor's queue in front of a list. */
  lemma EmptyQueuesCons(s: Arena, a: ActorId, ids: seq<ActorId>)
    requires a < |s|
    ensures EmptyQueues(s, ids)[a := EmptyQueues(s, ids)[a].(queue := [])] == EmptyQueues(s, [a] + ids)
  {
    var l := EmptyQueues(s, ids)[a := EmptyQueues(s, ids)[a].(queue := [])];
    var r := EmptyQueues(s, [a] + ids);
    assert forall j :: 0 <= j < |s| ==> l[j] == r[j];
  }

  /** Making one more actor Passive in front of a list. */
  lemma PassiveFlagsCons(f: seq<ActorFlags>, a: ActorId, ids: seq<ActorId>)
    requires a < |f|
    ensures PassiveFlags(f[a := f[a].(cb := f[a].cb.(status := Passive))], ids) == PassiveFlags(f, [a] + ids)
  {
    var l := PassiveFlags(f[a := f[a].(cb := f[a].cb.(status := Passive))], ids);
    var r := PassiveFlags(f, [a] + ids);
    assert forall j :: 0 <= j < |f| ==> l[j] == r[j];
  }

  /** An empty list changes nothing. */
  lemma NothingListed(s: Arena, f: seq<ActorFlags>)
    ensures EmptyQueues(s, []) == s && PassiveFlags(f, []) == f
  {
  }

  /** One step of terminateActor: `a` set Passive, then (when recursive)
      the chain of its child drained, then `a`'s own queue emptied, is the
      drain of the chain from `a`. It keeps the arena well formed and the
      flags numbered, and the messages handed back are `a`'s own in front of
      those of the child's chain. */
  lemma {:induction false} TerminatedStep(d0: Arena, f0: seq<ActorFlags>, a: ActorId, recursive: bool,
                                          ids: seq<ActorId>, d1: Arena, f1: seq<ActorFlags>)
    requires WellFormed(d0) && a < |d0| && |f0| == |d0|
    requires ids == if recursive && d0[a].child.Some? then Chain(d0, d0[a].child.value) else []
    requires DrainedState(d0, f0[a := f0[a].(cb := f0[a].cb.(status := Passive))], ids, d1, f1)
    ensures DrainedState(d0, f0, Terminated(d0, a, recursive), d1[a := d1[a].(queue := [])], f1)
    ensures WellFormed(d1[a := d1[a].(queue := [])]) && |f1| == |d1| == |d0|
    ensures Numbered(f0) ==> Numbered(f1)
    ensures Drained(d0, a, recursive)
         == d0[a].queue + (if ids == [] then [] else Drained(d0, d0[a].child.value, true))
  {
    assert a !in ids;
    assert Terminated(d0, a, recursive) == [a] + ids;
    PassiveFlagsCons(f0, a, ids);
    EmptyQueuesCons(d0, a, ids);
    EmptyQueuesKeepsChain(d0, [a] + ids, a);
  }

  /** Emptying queues outside a chain leaves that chain's messages as they
      were. */
  lemma {:induction false} ChainMessagesUntouched(s: Arena, ids: seq<ActorId>, a: ActorId)
    requires WellFormed(s) && a < |s|
    requires forall k :: 0 <= k < |Chain(s, a)| ==> Chain(s, a)[k] !in ids
    ensures WellFormed(EmptyQueues(s, ids))
    ensures ChainMessages(EmptyQueues(s, ids), a) == ChainMessages(s, a)
    decreases |s| - a
  {
    EmptyQueuesKeepsChain(s, ids, a);
    assert Chain(s, a)[0] == a;
    match s[a].child
    case None =>
    case Some(c) =>
      assert forall k :: 0 <= k < |Chain(s, c)| ==> Chain(s, c)[k] == Chain(s, a)[k + 1];
      ChainMessagesUntouched(s, ids, c);
  }
}
