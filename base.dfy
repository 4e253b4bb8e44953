/** Value types shared by the actor runtime: option and result wrappers,
    control blocks, messages and priorities. */
module Base {

  datatype Option<+T> = None | Some(value: T)

  /** The runtime's typed failures. `NullReference` stands for a
      NullPointerException the Java code raises by dereferencing a missing
      root actor; `Interrupted` for the InterruptedException that
      Thread.sleep throws on a thread whose interrupt status is set. */
  datatype Error = OccupiedTopic | InvalidTopic | NullReference | Interrupted

  datatype Result<+T> = Ok(value: T) | Err(error: Error)

  datatype Status = Active | Passive

  /** The kinds of schedulable entity. `Deamon` is the kind a daemon cluster
      carries; the control-block factory has no case for it. */
  datatype Kind = Router | Cluster | Gateway | Worker | Deamon

  /** A UUID is random in the source; here it is a number chosen by the caller. */
  type Uuid = nat

  datatype ControlBlock = ControlBlock(id: Uuid, kind: Kind, isRoot: bool, status: Status)

  /** The payload type parameter of an actor, fixed to strings: the runtime
      never inspects a payload. */
  type Payload = string

  /** An envelope; a message with no payload is what `deq` hands out when
      the queue is empty. */
  datatype ActorMessage = ActorMessage(id: Uuid, message: Option<Payload>)

  datatype ActorPriority = Max | High | Medium | Low | VeryLow | Default {
    /** The numeric rank of a priority: smaller is more urgent. */
    function Priority(): (r: int)
      ensures 0 <= r <= 500 && r % 100 == 0
    {
      match this
      case Max => 0
      case High => 100
      case Medium => 200
      case Low => 300
      case VeryLow => 400
      case Default => 500
    }
  }

  /** Java's Integer.compare: the sign of x - y. */
  function IntegerCompare(x: int, y: int): (r: int)
    ensures r == -1 || r == 0 || r == 1
    ensures r < 0 <==> x < y
    ensures r == 0 <==> x == y
    ensures r > 0 <==> x > y
  {
    if x < y then -1 else if x == y then 0 else 1
  }

  /** Actor.compareTo: actors are ordered by the numeric rank of their priority. */
  function ComparePriority(p: ActorPriority, q: ActorPriority): (r: int)
    ensures r < 0 <==> p.Priority() < q.Priority()
    ensures r == 0 <==> p == q
    ensures r > 0 <==> p.Priority() > q.Priority()
  {
    IntegerCompare(p.Priority(), q.Priority())
  }

  /** compareTo is antisymmetric and ranks distinct priorities apart. */
  lemma ComparePriorityAntisymmetric(p: ActorPriority, q: ActorPriority)
    ensures ComparePriority(p, q) == -ComparePriority(q, p)
    ensures p != q ==> ComparePriority(p, q) != 0
  {
  }

  /** The priorities from most to least urgent: MAX before HIGH before
      MEDIUM before LOW before VERY_LOW before DEFAULT. With the ranks'
      range, six strictly rising multiples of 100 are exactly 0, 100, ...,
      500. */
  lemma PriorityOrder(p: ActorPriority)
    ensures ComparePriority(Max, High) < 0 && ComparePriority(High, Medium) < 0
    ensures ComparePriority(Medium, Low) < 0 && ComparePriority(Low, VeryLow) < 0
    ensures ComparePriority(VeryLow, Default) < 0
    ensures ComparePriority(Max, p) <= 0 && ComparePriority(p, Default) <= 0
  {
  }

  function Reverse<T>(s: seq<T>): (r: seq<T>)
    ensures |r| == |s|
    ensures forall i :: 0 <= i < |s| ==> r[i] == s[|s| - 1 - i]
  {
    if s == [] then [] else Reverse(s[1..]) + [s[0]]
  }

  /** The elements of a sequence, as a set. */
  function Elems<T(==)>(s: seq<T>): set<T>
  {
    set x | x in s
  }

  predicate Distinct<T(==)>(s: seq<T>)
  {
    forall i, j :: 0 <= i < j < |s| ==> s[i] != s[j]
  }

  /** The elements of a prefix one longer. */
  lemma ElemsStep<T>(s: seq<T>, k: nat)
    requires k < |s|
    ensures Elems(s[..k + 1]) == Elems(s[..k]) + {s[k]}
  {
    assert s[..k + 1] == s[..k] + [s[k]];
  }

  /** The map that puts `vals[k]` under `keys[k]`, in order, a later key
      replacing an earlier equal one. */
  function Zip<K(==), V>(keys: seq<K>, vals: seq<V>): map<K, V>
    requires |keys| == |vals|
    decreases |keys|
  {
    if keys == [] then map[]
    else Zip(keys[..|keys| - 1], vals[..|vals| - 1])[keys[|keys| - 1] := vals[|vals| - 1]]
  }

  /** Putting one more entry. */
  lemma ZipSnoc<K, V>(keys: seq<K>, vals: seq<V>, k: K, v: V)
    requires |keys| == |vals|
    ensures Zip(keys + [k], vals + [v]) == Zip(keys, vals)[k := v]
  {
    assert (keys + [k])[..|keys|] == keys;
    assert (vals + [v])[..|vals|] == vals;
  }

  /** Putting the entry for the next key of a longer key list. */
  lemma ZipPrefix<K, V>(keys: seq<K>, vals: seq<V>, v: V)
    requires |vals| < |keys|
    ensures Zip(keys[..|vals| + 1], vals + [v]) == Zip(keys[..|vals|], vals)[keys[|vals|] := v]
  {
    assert keys[..|vals| + 1] == keys[..|vals|] + [keys[|vals|]];
    ZipSnoc(keys[..|vals|], vals, keys[|vals|], v);
  }

  /** With distinct keys, the map holds exactly the keys, each with its own
      value. */
  lemma {:induction false} ZipMeaning<K, V>(keys: seq<K>, vals: seq<V>)
    requires |keys| == |vals| && Distinct(keys)
    ensures Zip(keys, vals).Keys == Elems(keys)
    ensures forall k :: 0 <= k < |keys| ==> Zip(keys, vals)[keys[k]] == vals[k]
    decreases |keys|
  {
    if keys != [] {
      var n := |keys| - 1;
      ZipMeaning(keys[..n], vals[..n]);
      assert keys == keys[..n] + [keys[n]];
      forall k | 0 <= k < n ensures keys[k] != keys[n] { }
    }
  }
}
