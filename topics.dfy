/** The router's registry of root actors per topic, and the specifications of
    waiting for a topic's chain to become Passive and of draining every
    registered chain. */
module Topics {
  import opened Base
  import opened Chains
  import opened ChainLemmas

  /** The registry is consistent: every registered root is an actor of the
      arena and `order`, the key iteration order, lists each topic once. */
  ghost predicate Registry(roots: map<string, ActorId>, order: seq<string>, n: nat)
  {
    && (forall t :: t in roots ==> roots[t] < n)
    && Distinct(order)
    && (forall t :: t in roots <==> t in order)
  }

  /** The registered topics are exactly the topics of the key order. */
  lemma RegistryKeys(roots: map<string, ActorId>, order: seq<string>, n: nat)
    requires Registry(roots, order, n)
    ensures roots.Keys == Elems(order)
  {
    forall t | t in roots ensures t in Elems(order) {
      var k :| 0 <= k < |order| && order[k] == t;
    }
  }

  /** A put may rehash the map, so the key order after it is not fixed by
      the source: any order that lists the new key and the old ones, each
      once, is possible. */
  ghost predicate PutOrder(order: seq<string>, t: string, order': seq<string>)
  {
    Distinct(order') && forall x :: x in order' <==> x == t || x in order
  }

  /** Registering a new topic under any possible key order keeps the
      registry consistent. */
  lemma RegisterKeepsRegistry(roots: map<string, ActorId>, order: seq<string>, n: nat,
                              t: string, a: ActorId, order': seq<string>)
    requires Registry(roots, order, n) && t !in roots && a < n
    requires PutOrder(order, t, order')
    ensures Registry(roots[t := a], order', n)
  {
  }

  /** The topics in the reverse of the iteration order are exactly the
      registered ones, each once. */
  lemma AllTopicsExactly(roots: map<string, ActorId>, order: seq<string>, n: nat)
    requires Registry(roots, order, n)
    ensures Distinct(Reverse(order))
    ensures forall t :: t in Reverse(order) <==> t in roots
  {
    var r := Reverse(order);
    forall t | t in roots ensures t in r {
      var i :| 0 <= i < |order| && order[i] == t;
      assert r[|order| - 1 - i] == t;
    }
    forall t | t in r ensures t in order {
      var i :| 0 <= i < |r| && r[i] == t;
      assert order[|order| - 1 - i] == t;
    }
  }

  /** One pass of waitForTermination over a list of topics, the topics in
      turn: an unregistered topic raises InvalidTopic; for a registered one
      the chain is inspected and then the thread sleeps, which raises
      Interrupted on an interrupted thread; a chain with an actor that is not
      Passive keeps the caller polling forever (Ok(false)); the pass ends
      with Ok(true) once every listed chain is Passive. */
  ghost function Poll(s: Arena, f: seq<ActorFlags>, roots: map<string, ActorId>, list: seq<string>,
                      interrupted: bool): (r: Result<bool>)
    requires WellFormed(s) && |f| == |s| && forall t :: t in roots ==> roots[t] < |s|
    ensures r.Err? ==> r.error == InvalidTopic || r.error == Interrupted
    ensures r.Err? && r.error == Interrupted ==> interrupted
    ensures r == Ok(true) && list != [] ==> !interrupted && list[0] in roots
    decreases |list|
  {
    if list == [] then Ok(true)
    else if list[0] !in roots then Err(InvalidTopic)
    else if interrupted then Err(Interrupted)
    else if !AllPassive(f, Chain(s, roots[list[0]])) then Ok(false)
    else Poll(s, f, roots, list[1..], interrupted)
  }

  /** A wait completes exactly when every listed topic is registered and
      its whole chain is Passive, on a thread that is not interrupted (or
      with nothing to wait for). */
  lemma {:induction false} PollMeaning(s: Arena, f: seq<ActorFlags>, roots: map<string, ActorId>,
                                       list: seq<string>, interrupted: bool)
    requires WellFormed(s) && |f| == |s| && forall t :: t in roots ==> roots[t] < |s|
    ensures Poll(s, f, roots, list, interrupted) == Ok(true) <==>
      && (forall k :: 0 <= k < |list| ==> list[k] in roots && AllPassive(f, Chain(s, roots[list[k]])))
      && (interrupted ==> list == [])
    decreases |list|
  {
    if list != [] {
      PollMeaning(s, f, roots, list[1..], interrupted);
      assert forall k :: 1 <= k < |list| ==> list[k] == list[1..][k - 1];
    }
  }

  /** A wait over registered topics never raises InvalidTopic. */
  lemma {:induction false} PollRegistered(s: Arena, f: seq<ActorFlags>, roots: map<string, ActorId>,
                                          list: seq<string>, interrupted: bool)
    requires WellFormed(s) && |f| == |s| && forall t :: t in roots ==> roots[t] < |s|
    requires forall k :: 0 <= k < |list| ==> list[k] in roots
    ensures Poll(s, f, roots, list, interrupted) != Err(InvalidTopic)
    decreases |list|
  {
    if list != [] {
      assert list[0] in roots;
      assert forall k :: 0 <= k < |list[1..]| ==> list[1..][k] == list[k + 1];
      PollRegistered(s, f, roots, list[1..], interrupted);
    }
  }

  /** The root actors of the topics, in iteration order. */
  function RootsOf(roots: map<string, ActorId>, order: seq<string>): (r: seq<ActorId>)
    requires forall k :: 0 <= k < |order| ==> order[k] in roots
    ensures |r| == |order|
    ensures forall k :: 0 <= k < |r| ==> r[k] == roots[order[k]]
  {
    seq(|order|, k requires 0 <= k < |order| => roots[order[k]])
  }

  /** The actors of the chains from the listed roots, chain after chain. */
  ghost function ChainsOf(s: Arena, roots: seq<ActorId>): (r: seq<ActorId>)
    requires WellFormed(s) && forall k :: 0 <= k < |roots| ==> roots[k] < |s|
    ensures forall k :: 0 <= k < |r| ==> r[k] < |s|
    decreases |roots|
  {
    if roots == [] then []
    else ChainsOf(s, roots[..|roots| - 1]) + Chain(s, roots[|roots| - 1])
  }

  /** What the drain of the k-th root returns when the roots are drained in
      order: its chain's messages once the earlier chains are emptied. */
  ghost function DrainOf(s: Arena, roots: seq<ActorId>, k: nat): seq<ActorMessage>
    requires WellFormed(s) && forall j :: 0 <= j < |roots| ==> roots[j] < |s|
    requires k < |roots|
  {
    var ids := ChainsOf(s, roots[..k]);
    EmptyQueuesKeepsChain(s, ids, roots[k]);
    ChainMessages(EmptyQueues(s, ids), roots[k])
  }

  /** The chains of one more root. */
  lemma ChainsOfStep(s: Arena, roots: seq<ActorId>, i: nat)
    requires WellFormed(s) && forall k :: 0 <= k < |roots| ==> roots[k] < |s|
    requires i < |roots|
    ensures ChainsOf(s, roots[..i + 1]) == ChainsOf(s, roots[..i]) + Chain(s, roots[i])
  {
    assert roots[..i + 1][..i] == roots[..i];
  }

  /** One round of terminateRouter: draining the next root's chain after
      the chains of the earlier roots were drained drains the chains of one
      more root, and hands back that root's share of the drain. */
  lemma RouterStep(d0: Arena, f0: seq<ActorFlags>, roots: seq<ActorId>, i: nat,
                   d1: Arena, f1: seq<ActorFlags>, d2: Arena, f2: seq<ActorFlags>, msgs: seq<ActorMessage>)
    requires WellFormed(d0) && forall k :: 0 <= k < |roots| ==> roots[k] < |d0|
    requires i < |roots|
    requires DrainedState(d0, f0, ChainsOf(d0, roots[..i]), d1, f1)
    requires WellFormed(d1) && |d1| == |d0|
    requires DrainedState(d1, f1, Terminated(d1, roots[i], true), d2, f2)
    requires msgs == Drained(d1, roots[i], true)
    ensures DrainedState(d0, f0, ChainsOf(d0, roots[..i + 1]), d2, f2)
    ensures msgs == DrainOf(d0, roots, i)
  {
    EmptyQueuesKeepsChain(d0, ChainsOf(d0, roots[..i]), roots[i]);
    ChainsOfStep(d0, roots, i);
    DrainedCompose(d0, f0, ChainsOf(d0, roots[..i]), d1, f1, Chain(d0, roots[i]), d2, f2);
  }

  /** What terminateRouter does to the actors, from `s` and `f` to `s'`
      and `f'`, and hands back in `jobs`: the chains of all registered
      roots are drained, topic after topic in the key order, and each
      topic's share of the drain is recorded under it. */
  ghost predicate RouterDrained(s: Arena, f: seq<ActorFlags>, roots: map<string, ActorId>, order: seq<string>,
                                jobs: map<string, seq<ActorMessage>>, s': Arena, f': seq<ActorFlags>)
    requires WellFormed(s) && Registry(roots, order, |s|)
  {
    && DrainedState(s, f, ChainsOf(s, RootsOf(roots, order)), s', f')
    && jobs.Keys == roots.Keys
    && (forall k :: 0 <= k < |order| ==> jobs[order[k]] == DrainOf(s, RootsOf(roots, order), k))
  }

  /** Every actor on the chain of a listed root is among the chains. */
  lemma {:induction false} ChainsOfCovers(s: Arena, roots: seq<ActorId>, k: nat)
    requires WellFormed(s) && forall j :: 0 <= j < |roots| ==> roots[j] < |s|
    requires k < |roots|
    ensures forall x :: x in Chain(s, roots[k]) ==> x in ChainsOf(s, roots)
    decreases |roots|
  {
    var n := |roots| - 1;
    if k < n {
      ChainsOfCovers(s, roots[..n], k);
    }
  }

  /** After every listed chain is drained, each listed root's chain holds no
      messages. */
  lemma RouterDrainEmpties(s: Arena, roots: seq<ActorId>, k: nat)
    requires WellFormed(s) && forall j :: 0 <= j < |roots| ==> roots[j] < |s|
    requires k < |roots|
    ensures WellFormed(EmptyQueues(s, ChainsOf(s, roots)))
    ensures ChainMessages(EmptyQueues(s, ChainsOf(s, roots)), roots[k]) == []
  {
    ChainsOfCovers(s, roots, k);
    DrainedChainIsEmpty(s, ChainsOf(s, roots), roots[k]);
  }

  /** The drains of the first `i` roots, one more. */
  lemma DrainsSnoc(s: Arena, rs: seq<ActorId>, drains: seq<seq<ActorMessage>>, msgs: seq<ActorMessage>)
    requires WellFormed(s) && forall k :: 0 <= k < |rs| ==> rs[k] < |s|
    requires |drains| < |rs|
    requires forall k :: 0 <= k < |drains| ==> drains[k] == DrainOf(s, rs, k)
    requires msgs == DrainOf(s, rs, |drains|)
    ensures forall k :: 0 <= k < |drains| + 1 ==> (drains + [msgs])[k] == DrainOf(s, rs, k)
  {
    forall k | 0 <= k < |drains| + 1 ensures (drains + [msgs])[k] == DrainOf(s, rs, k) {
      if k < |drains| {
        assert (drains + [msgs])[k] == drains[k];
      }
    }
  }

  /** The progress of terminateRouter after the first `i` of the topics
      `order`, whose roots are `rs`: their chains are drained, in that
      order, `drains` holds what each drain handed back, and `jobs` records
      it under each topic. */
  ghost predicate RouterProgress(s: Arena, f: seq<ActorFlags>, rs: seq<ActorId>, order: seq<string>,
                                 i: nat, s': Arena, f': seq<ActorFlags>,
                                 jobs: map<string, seq<ActorMessage>>, drains: seq<seq<ActorMessage>>)
    requires WellFormed(s) && |rs| == |order| && forall k :: 0 <= k < |rs| ==> rs[k] < |s|
  {
    && i <= |order| && |drains| == i
    && WellFormed(s') && |f'| == |s'| == |s|
    && (Numbered(f) ==> Numbered(f'))
    && DrainedState(s, f, ChainsOf(s, rs[..i]), s', f')
    && (forall k :: 0 <= k < i ==> drains[k] == DrainOf(s, rs, k))
    && jobs == Zip(order[..i], drains)
  }

  /** Nothing is drained or recorded before the first topic. */
  lemma {:induction false} RouterProgressStart(s: Arena, f: seq<ActorFlags>, rs: seq<ActorId>, order: seq<string>)
    requires WellFormed(s) && |f| == |s| && |rs| == |order| && forall k :: 0 <= k < |rs| ==> rs[k] < |s|
    ensures RouterProgress(s, f, rs, order, 0, s, f, map[], [])
  {
    assert rs[..0] == [];
    assert order[..0] == [];
    NothingListed(s, f);
  }

  /** Terminating the next topic's chain recursively and recording what it
      hands back under the topic advances terminateRouter by one topic. */
  lemma {:induction false} RouterProgressStep(s: Arena, f: seq<ActorFlags>, rs: seq<ActorId>, order: seq<string>,
                                              i: nat, s1: Arena, f1: seq<ActorFlags>,
                                              jobs: map<string, seq<ActorMessage>>, drains: seq<seq<ActorMessage>>,
                                              s2: Arena, f2: seq<ActorFlags>, msgs: seq<ActorMessage>)
    requires WellFormed(s) && |rs| == |order| && forall k :: 0 <= k < |rs| ==> rs[k] < |s|
    requires i < |order|
    requires RouterProgress(s, f, rs, order, i, s1, f1, jobs, drains)
    requires DrainedState(s1, f1, Terminated(s1, rs[i], true), s2, f2)
    requires msgs == Drained(s1, rs[i], true)
    requires WellFormed(s2) && |f2| == |s2| == |s1|
    requires Numbered(f1) ==> Numbered(f2)
    ensures RouterProgress(s, f, rs, order, i + 1, s2, f2, jobs[order[i] := msgs], drains + [msgs])
  {
    RouterStep(s, f, rs, i, s1, f1, s2, f2, msgs);
    DrainsSnoc(s, rs, drains, msgs);
    ZipPrefix(order, drains, msgs);
  }

  /** Once every topic is done, all the chains are drained and, the topics
      being distinct, each has its own chain's drain recorded. */
  lemma {:induction false} RouterProgressDone(s: Arena, f: seq<ActorFlags>, rs: seq<ActorId>, order: seq<string>,
                                              s': Arena, f': seq<ActorFlags>,
                                              jobs: map<string, seq<ActorMessage>>, drains: seq<seq<ActorMessage>>)
    requires WellFormed(s) && |rs| == |order| && forall k :: 0 <= k < |rs| ==> rs[k] < |s|
    requires Distinct(order)
    requires RouterProgress(s, f, rs, order, |order|, s', f', jobs, drains)
    ensures DrainedState(s, f, ChainsOf(s, rs), s', f')
    ensures jobs.Keys == Elems(order)
    ensures forall k :: 0 <= k < |order| ==> jobs[order[k]] == DrainOf(s, rs, k)
  {
    assert rs[..|order|] == rs;
    assert order[..|order|] == order;
    ZipMeaning(order, drains);
  }

  /** Every actor of the listed chains lies on the chain of one of the
      roots. */
  lemma {:induction false} ChainsOfOnly(s: Arena, roots: seq<ActorId>, x: ActorId) returns (j: nat)
    requires WellFormed(s) && forall k :: 0 <= k < |roots| ==> roots[k] < |s|
    requires x in ChainsOf(s, roots)
    ensures j < |roots| && x in Chain(s, roots[j])
    decreases |roots|
  {
    var n := |roots| - 1;
    if x in Chain(s, roots[n]) {
      j := n;
    } else {
      j := ChainsOfOnly(s, roots[..n], x);
      assert roots[..n][j] == roots[j];
    }
  }

  /** When the chain of the k-th root shares no actor with the chains of
      the roots drained before it, its share of terminateRouter's result is
      exactly the messages its chain held. */
  lemma DisjointDrainOf(s: Arena, rs: seq<ActorId>, k: nat)
    requires WellFormed(s) && forall j :: 0 <= j < |rs| ==> rs[j] < |s|
    requires k < |rs|
    requires forall j, x :: 0 <= j < k && x in Chain(s, rs[j]) ==> x !in Chain(s, rs[k])
    ensures DrainOf(s, rs, k) == ChainMessages(s, rs[k])
  {
    var ids := ChainsOf(s, rs[..k]);
    var c := Chain(s, rs[k]);
    forall i | 0 <= i < |c| ensures c[i] !in ids {
      var x := c[i];
      assert x in Chain(s, rs[k]);
      forall j | 0 <= j < k ensures x !in Chain(s, rs[..k][j]) {
        assert rs[..k][j] == rs[j];
      }
      NotDrainedEarlier(s, rs[..k], x);
    }
    ChainMessagesUntouched(s, ids, rs[k]);
  }

  /** An actor on none of the listed chains is not among their actors. */
  lemma NotDrainedEarlier(s: Arena, roots: seq<ActorId>, x: ActorId)
    requires WellFormed(s) && forall j :: 0 <= j < |roots| ==> roots[j] < |s|
    requires forall j :: 0 <= j < |roots| ==> x !in Chain(s, roots[j])
    ensures x !in ChainsOf(s, roots)
  {
    if x in ChainsOf(s, roots) {
      var j := ChainsOfOnly(s, roots, x);
    }
  }
}
