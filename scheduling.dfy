/** The bookkeeping of execution requests: which requests submit a task, the
    task handles recorded per topic, and the per-topic actor counter. */
module Scheduling {
  import opened Base
  import opened Chains

  /** The count a topic has in the counter map; an absent topic counts 0. */
  function CountOf(m: map<string, int>, t: string): int
  {
    if t in m then m[t] else 0
  }

  /** incrementActorCount on the counter map: an absent topic is set to 1,
      a present one is raised by 1, and no other topic changes. */
  function Increment(m: map<string, int>, t: string): (r: map<string, int>)
    ensures r.Keys == m.Keys + {t}
    ensures r[t] == CountOf(m, t) + 1
    ensures forall u :: u in m && u != t ==> r[u] == m[u]
  {
    if t in m then m[t := m[t] + 1] else m[t := 1]
  }

  /** The counter map after `n` actors of topic `t` are counted one by one:
      the topic's count rises by exactly `n`. */
  function WithCount(m: map<string, int>, t: string, n: nat): (r: map<string, int>)
    ensures n == 0 ==> r == m
    ensures n > 0 ==> r == m[t := CountOf(m, t) + n]
    decreases n
  {
    if n == 0 then m else WithCount(Increment(m, t), t, n - 1)
  }

  /** Counting in two rounds is counting once. */
  lemma WithCountAdd(m: map<string, int>, t: string, x: nat, y: nat)
    ensures WithCount(WithCount(m, t, x), t, y) == WithCount(m, t, x + y)
  {
  }

  /** The counter maps of two successive rounds of child creation compose. */
  lemma CountsCompose(c0: map<string, int>, c1: map<string, int>, c2: map<string, int>,
                      t: string, n0: nat, n1: nat, n2: nat)
    requires n0 <= n1 <= n2
    requires c1 == WithCount(c0, t, n1 - n0) && c2 == WithCount(c1, t, n2 - n1)
    ensures c2 == WithCount(c0, t, n2 - n0)
  {
    WithCountAdd(c0, t, n1 - n0, n2 - n1);
  }

  /** `f`, `c` are the flags and the counter after the arena of one topic's
      chain grew from `n0` to `n` actors: the new actors carry child flags
      and each of them was counted once for the topic. */
  ghost predicate Grew(f0: seq<ActorFlags>, c0: map<string, int>, n0: nat,
                       f: seq<ActorFlags>, c: map<string, int>, n: nat, topic: string)
  {
    && |f0| <= n0 <= n
    && f == Extend(f0, n)
    && c == WithCount(c0, topic, n - n0)
  }

  /** Two growth steps of one topic compose into one. */
  lemma GrewCompose(f0: seq<ActorFlags>, c0: map<string, int>, n0: nat,
                    f1: seq<ActorFlags>, c1: map<string, int>, n1: nat,
                    f2: seq<ActorFlags>, c2: map<string, int>, n2: nat, topic: string)
    requires Grew(f0, c0, n0, f1, c1, n1, topic) && Grew(f1, c1, n1, f2, c2, n2, topic)
    ensures Grew(f0, c0, n0, f2, c2, n2, topic)
  {
    ExtendTwice(f0, n1, n2);
    CountsCompose(c0, c1, c2, topic, n0, n1, n2);
  }

  /** Not growing at all is a growth step. */
  lemma GrewNone(f: seq<ActorFlags>, c: map<string, int>, n: nat, topic: string)
    requires |f| == n
    ensures Grew(f, c, n, f, c, n, topic)
  {
  }

  /** The task handles recorded for a topic; an absent topic has none. */
  function Handles(fu: map<string, seq<nat>>, t: string): seq<nat>
  {
    if t in fu then fu[t] else []
  }

  /** The handles lo, lo + 1, ..., hi - 1. */
  function Range(lo: nat, hi: nat): (r: seq<nat>)
    requires lo <= hi
    ensures |r| == hi - lo
    ensures forall k :: 0 <= k < |r| ==> r[k] == lo + k
    decreases hi - lo
  {
    if lo == hi then [] else [lo] + Range(lo + 1, hi)
  }

  /** The futures map after the handles lo .. hi - 1 are submitted for topic
      `t`, the topic's list being created if absent. */
  function Issued(fu: map<string, seq<nat>>, t: string, lo: nat, hi: nat): (r: map<string, seq<nat>>)
    requires lo <= hi
    ensures lo == hi ==> r == fu
    ensures lo < hi ==> r.Keys == fu.Keys + {t} && r[t] == Handles(fu, t) + Range(lo, hi)
    ensures forall u :: u in fu && u != t ==> r[u] == fu[u]
  {
    if lo == hi then fu else fu[t := Handles(fu, t) + Range(lo, hi)]
  }

  /** Consecutive ranges of handles join into one. */
  lemma {:induction false} RangeSplit(a: nat, b: nat, c: nat)
    requires a <= b <= c
    ensures Range(a, b) + Range(b, c) == Range(a, c)
    decreases b - a
  {
    if a < b {
      RangeSplit(a + 1, b, c);
      assert Range(a, b) + Range(b, c) == [a] + (Range(a + 1, b) + Range(b, c));
    }
  }

  /** Submitting in two rounds records the same handles as submitting once. */
  lemma IssuedAdd(fu: map<string, seq<nat>>, t: string, a: nat, b: nat, c: nat)
    requires a <= b <= c
    ensures Issued(Issued(fu, t, a, b), t, b, c) == Issued(fu, t, a, c)
  {
    if a < b && b < c {
      var fu1 := Issued(fu, t, a, b);
      assert Handles(fu1, t) == Handles(fu, t) + Range(a, b);
      RangeSplit(a, b, c);
      assert Handles(fu1, t) + Range(b, c) == Handles(fu, t) + Range(a, c);
    }
  }

  /** The listed actors whose request is admitted, each submitting one task. */
  ghost function Admitted(f: seq<ActorFlags>, ids: set<ActorId>): set<ActorId>
  {
    set j | j in ids && 0 <= j < |f| && Admissible(f[j])
  }

  /** `f`, `fu`, `n` are the flags, futures and next handle after the actors
      `ids` of one topic each received an execution request, starting from
      `f0`, `fu0`, `n0` with the arena grown to `size` actors: every admitted
      actor is Active and notified and submitted exactly one fresh handle. */
  ghost predicate RequestsIssued(f0: seq<ActorFlags>, fu0: map<string, seq<nat>>, n0: nat,
                                 f: seq<ActorFlags>, fu: map<string, seq<nat>>, n: nat,
                                 topic: string, ids: set<ActorId>, size: nat)
  {
    && |f0| <= size
    && (forall j :: j in ids ==> j < size)
    && f == RequestAll(Extend(f0, size), ids)
    && n == n0 + |Admitted(Extend(f0, size), ids)|
    && fu == Issued(fu0, topic, n0, n)
  }

  lemma ExtendTwice(f: seq<ActorFlags>, n1: nat, n2: nat)
    requires |f| <= n1 <= n2
    ensures Extend(Extend(f, n1), n2) == Extend(f, n2)
  {
  }

  /** A request is idempotent: the second one finds the actor notified or
      Active and admits nothing. */
  lemma RequestedIdempotent(fl: ActorFlags)
    ensures Requested(Requested(fl)) == Requested(fl)
    ensures !Admissible(Requested(fl))
  {
  }

  /** Growing the arena changes neither the requests already made nor which
      of them were admitted. */
  lemma ExtendRequestAll(f: seq<ActorFlags>, ids: set<ActorId>, n: nat)
    requires |f| <= n && forall j :: j in ids ==> j < |f|
    ensures Extend(RequestAll(f, ids), n) == RequestAll(Extend(f, n), ids)
    ensures Admitted(Extend(f, n), ids) == Admitted(f, ids)
  {
  }

  /** Requests on two sets of actors, one after the other, are requests on
      their union; an actor of the first set is not admitted twice. */
  lemma RequestAllUnion(f: seq<ActorFlags>, t: set<ActorId>, u: set<ActorId>)
    ensures RequestAll(RequestAll(f, t), u) == RequestAll(f, t + u)
    ensures Admitted(RequestAll(f, t), u) == Admitted(f, u) - t
    ensures |Admitted(f, t + u)| == |Admitted(f, t)| + |Admitted(RequestAll(f, t), u)|
  {
    forall j | 0 <= j < |f| && j in t
      ensures !Admissible(RequestAll(f, t)[j])
      ensures RequestAll(RequestAll(f, t), u)[j] == RequestAll(f, t + u)[j]
    {
      RequestedIdempotent(f[j]);
    }
    assert Admitted(f, t + u) == Admitted(f, t) + (Admitted(f, u) - t);
    assert Admitted(f, t) * (Admitted(f, u) - t) == {};
  }

  /** Two rounds of requests within one topic compose into one round over
      the union of the requested actors. */
  lemma ComposeRequests(f0: seq<ActorFlags>, fu0: map<string, seq<nat>>, n0: nat,
                        f1: seq<ActorFlags>, fu1: map<string, seq<nat>>, n1: nat,
                        f2: seq<ActorFlags>, fu2: map<string, seq<nat>>, n2: nat,
                        topic: string, t: set<ActorId>, s1: nat, u: set<ActorId>, s2: nat)
    requires RequestsIssued(f0, fu0, n0, f1, fu1, n1, topic, t, s1)
    requires RequestsIssued(f1, fu1, n1, f2, fu2, n2, topic, u, s2)
    ensures RequestsIssued(f0, fu0, n0, f2, fu2, n2, topic, t + u, s2)
  {
    var x := Extend(f0, s2);
    ExtendTwice(f0, s1, s2);
    ExtendRequestAll(Extend(f0, s1), t, s2);
    RequestAllUnion(x, t, u);
    IssuedAdd(fu0, topic, n0, n1, n2);
  }

  /** Growing the arena without a request issues nothing. */
  lemma NoRequests(f0: seq<ActorFlags>, fu0: map<string, seq<nat>>, n0: nat, topic: string, size: nat)
    requires |f0| <= size
    ensures RequestsIssued(f0, fu0, n0, Extend(f0, size), fu0, n0, topic, {}, size)
  {
    assert Admitted(Extend(f0, size), {}) == {};
  }

  /** The flags, futures, next handle and counter after a send into one
      topic's chain: the arena grew from `n0` to `n` actors, each new actor
      counted once, and every actor of `ids` received an execution request. */
  ghost predicate SentTo(f0: seq<ActorFlags>, fu0: map<string, seq<nat>>, k0: nat, c0: map<string, int>, n0: nat,
                         f: seq<ActorFlags>, fu: map<string, seq<nat>>, k: nat, c: map<string, int>, n: nat,
                         topic: string, ids: set<ActorId>)
  {
    && n0 <= n
    && RequestsIssued(f0, fu0, k0, f, fu, k, topic, ids, n)
    && c == WithCount(c0, topic, n - n0)
  }

  /** Two sends into one chain compose into one send to both sets. */
  lemma SentCompose(f0: seq<ActorFlags>, fu0: map<string, seq<nat>>, k0: nat, c0: map<string, int>, n0: nat,
                    f1: seq<ActorFlags>, fu1: map<string, seq<nat>>, k1: nat, c1: map<string, int>, n1: nat,
                    f2: seq<ActorFlags>, fu2: map<string, seq<nat>>, k2: nat, c2: map<string, int>, n2: nat,
                    topic: string, t: set<ActorId>, u: set<ActorId>)
    requires SentTo(f0, fu0, k0, c0, n0, f1, fu1, k1, c1, n1, topic, t)
    requires SentTo(f1, fu1, k1, c1, n1, f2, fu2, k2, c2, n2, topic, u)
    ensures SentTo(f0, fu0, k0, c0, n0, f2, fu2, k2, c2, n2, topic, t + u)
  {
    ComposeRequests(f0, fu0, k0, f1, fu1, k1, f2, fu2, k2, topic, t, n1, u, n2);
    CountsCompose(c0, c1, c2, topic, n0, n1, n2);
  }

  /** Growth of the chain without a request, followed by a send, is a send. */
  lemma GrewThenSent(f0: seq<ActorFlags>, c0: map<string, int>, n0: nat,
                     f1: seq<ActorFlags>, c1: map<string, int>, n1: nat,
                     fu: map<string, seq<nat>>, k: nat,
                     f2: seq<ActorFlags>, fu2: map<string, seq<nat>>, k2: nat, c2: map<string, int>, n2: nat,
                     topic: string, ids: set<ActorId>)
    requires Grew(f0, c0, n0, f1, c1, n1, topic)
    requires SentTo(f1, fu, k, c1, n1, f2, fu2, k2, c2, n2, topic, ids)
    ensures SentTo(f0, fu, k, c0, n0, f2, fu2, k2, c2, n2, topic, ids)
  {
    NoRequests(f0, fu, k, topic, n1);
    SentCompose(f0, fu, k, c0, n0, f1, fu, k, c1, n1, f2, fu2, k2, c2, n2, topic, {}, ids);
    assert {} + ids == ids;
  }

  /** Sending nothing to nobody. */
  lemma SentNone(f: seq<ActorFlags>, fu: map<string, seq<nat>>, k: nat, c: map<string, int>, n: nat, topic: string)
    requires |f| == n
    ensures SentTo(f, fu, k, c, n, f, fu, k, c, n, topic, {})
  {
    NoRequests(f, fu, k, topic, n);
  }

  /** A single request is a send that does not grow the chain. */
  lemma RequestIsSent(f0: seq<ActorFlags>, fu0: map<string, seq<nat>>, k0: nat, c: map<string, int>, n: nat,
                      f: seq<ActorFlags>, fu: map<string, seq<nat>>, k: nat, topic: string, ids: set<ActorId>)
    requires RequestsIssued(f0, fu0, k0, f, fu, k, topic, ids, n)
    ensures SentTo(f0, fu0, k0, c, n, f, fu, k, c, n, topic, ids)
  {
  }
}
