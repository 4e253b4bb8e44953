/** The delayed cache: a key-value store whose entries are dropped by a
    cleaner once their expiry time has passed. Each stored value sits behind
    a reference of its own, so that an expiry record removes its key only
    while the key still holds the very reference the record was made for. */
module Cache {
  import opened Base

  /** The identity of one reference object; every put makes a fresh one. */
  type Handle = nat

  /** The reference a key is mapped to: its identity and the value. */
  datatype Ref<V> = Ref(handle: Handle, value: V)

  /** An expiry record: the key, the reference it was put with and the
      moment (in milliseconds) at which it is due. */
  datatype Record = Record(key: string, handle: Handle, expiry: int)

  const LongMin: int := -0x8000_0000_0000_0000
  const LongMax: int := 0x7fff_ffff_ffff_ffff

  predicate IsLong(x: int)
  {
    LongMin <= x <= LongMax
  }

  /** Java's `long` addition: the exact sum, wrapped into 64 bits. */
  function AddLong(x: int, y: int): (r: int)
    requires IsLong(x) && IsLong(y)
    ensures IsLong(r)
    ensures IsLong(x + y) ==> r == x + y
    ensures x + y > LongMax ==> r == x + y - 0x1_0000_0000_0000_0000
    ensures x + y < LongMin ==> r == x + y + 0x1_0000_0000_0000_0000
  {
    (x + y - LongMin) % 0x1_0000_0000_0000_0000 + LongMin
  }

  /** Java's `long` subtraction: the exact difference, wrapped into 64
      bits. */
  function SubLong(x: int, y: int): (r: int)
    ensures IsLong(r)
    ensures IsLong(x - y) ==> r == x - y
    ensures IsLong(x) && IsLong(y) && x - y > LongMax ==> r == x - y - 0x1_0000_0000_0000_0000
    ensures IsLong(x) && IsLong(y) && x - y < LongMin ==> r == x - y + 0x1_0000_0000_0000_0000
  {
    (x - y - LongMin) % 0x1_0000_0000_0000_0000 + LongMin
  }

  /** DelayedCacheObject.getDelay at time `now`: the record is due once the
      remaining delay, `expiry - now` in long arithmetic, is no longer
      positive. Converting the delay to another time unit saturates but
      keeps its sign, so only the sign of the difference matters. */
  predicate IsDue(r: Record, now: int)
    ensures IsLong(r.expiry - now) ==> (IsDue(r, now) <==> r.expiry <= now)
  {
    SubLong(r.expiry, now) <= 0
  }

  /** A period so long that the sum wraps gives a record that is never due
      at any later moment: its expiry sorts before every real one, yet the
      remaining delay stays positive. */
  lemma WrappedNeverDue(now: int, period: int, later: int, key: string, h: Handle)
    requires IsLong(now) && IsLong(period) && IsLong(later)
    requires now + period > LongMax && now <= later
    ensures AddLong(now, period) < now
    ensures !IsDue(Record(key, h, AddLong(now, period)), later)
  {
    var e := AddLong(now, period);
    assert e - later < LongMin;
    assert SubLong(e, later) == now + period - later;
  }

  /** Saturating addition: the sum, or the largest long when the sum would
      not fit. */
  function AddSat(x: int, y: int): (r: int)
    requires IsLong(x) && IsLong(y)
    ensures IsLong(r)
    ensures IsLong(x + y) ==> r == x + y
    ensures x + y > LongMax ==> r == LongMax
    ensures x + y < LongMin ==> r == LongMin
  {
    if x + y > LongMax then LongMax else if x + y < LongMin then LongMin else x + y
  }

  /** With saturating addition, a put at a moment `now >= 0` with a period
      `>= 0` gives an expiry no earlier than the put and no wrap-around
      against any later moment. */
  lemma SaturatedExpiryNoWrap(now: int, period: int, later: int)
    requires 0 <= now <= later <= LongMax && 0 <= period <= LongMax
    ensures now <= AddSat(now, period)
    ensures IsLong(AddSat(now, period) - later)
    ensures IsDue(Record("", 0, AddSat(now, period)), later) <==> AddSat(now, period) <= later
  {
  }

  /** DelayedCacheObject.compareTo: records are ordered by expiry time, as
      Long.compare orders them. */
  function CompareExpiry(a: Record, b: Record): (r: int)
    ensures r < 0 <==> a.expiry < b.expiry
    ensures r == 0 <==> a.expiry == b.expiry
    ensures r > 0 <==> a.expiry > b.expiry
  {
    IntegerCompare(a.expiry, b.expiry)
  }

  /** The comparison is antisymmetric and transitive, so it is a total
      preorder on records. */
  lemma CompareExpiryOrder(a: Record, b: Record, c: Record)
    ensures CompareExpiry(a, b) == -CompareExpiry(b, a)
    ensures CompareExpiry(a, b) <= 0 && CompareExpiry(b, c) <= 0 ==> CompareExpiry(a, c) <= 0
  {
  }

  /** The delay queue releases records in this order: no record is due
      later than one behind it. */
  predicate Sorted(q: seq<Record>)
  {
    forall i, j :: 0 <= i < j < |q| ==> CompareExpiry(q[i], q[j]) <= 0
  }

  /** Putting a record into the delay queue: it goes behind every record
      that is due no later than it. */
  function Insert(q: seq<Record>, r: Record): (q': seq<Record>)
    ensures |q'| == |q| + 1
    ensures r in q' && forall x :: x in q ==> x in q'
    decreases |q|
  {
    if q == [] || r.expiry < q[0].expiry then [r] + q else [q[0]] + Insert(q[1..], r)
  }

  /** The queue gains exactly the record. */
  lemma {:induction false} InsertAdds(q: seq<Record>, r: Record)
    ensures multiset(Insert(q, r)) == multiset(q) + multiset{r}
    decreases |q|
  {
    if !(q == [] || r.expiry < q[0].expiry) {
      InsertAdds(q[1..], r);
      assert q == [q[0]] + q[1..];
    }
  }

  /** The queue stays in release order. */
  lemma {:induction false} InsertSorted(q: seq<Record>, r: Record)
    requires Sorted(q)
    ensures Sorted(Insert(q, r))
    decreases |q|
  {
    if q == [] {
      assert Insert(q, r) == [r];
    } else if r.expiry < q[0].expiry {
      forall k | 0 <= k < |q| ensures r.expiry <= q[k].expiry {
        assert k > 0 ==> CompareExpiry(q[0], q[k]) <= 0;
      }
      SortedCons(r, q);
    } else {
      var rest := Insert(q[1..], r);
      InsertSorted(q[1..], r);
      InsertAdds(q[1..], r);
      forall k | 0 <= k < |rest| ensures q[0].expiry <= rest[k].expiry {
        assert rest[k] in multiset(rest);
        if rest[k] != r {
          assert rest[k] in multiset(q[1..]);
          var j :| 0 <= j < |q[1..]| && q[1..][j] == rest[k];
          assert CompareExpiry(q[0], q[j + 1]) <= 0;
        }
      }
      SortedCons(q[0], rest);
    }
  }

  /** A record due no later than every record of a sorted queue can go in
      front of it. */
  lemma SortedCons(x: Record, q: seq<Record>)
    requires Sorted(q)
    requires forall k :: 0 <= k < |q| ==> x.expiry <= q[k].expiry
    ensures Sorted([x] + q)
  {
    var q' := [x] + q;
    forall i, j | 0 <= i < j < |q'| ensures CompareExpiry(q'[i], q'[j]) <= 0 {
      if i > 0 {
        assert CompareExpiry(q[i - 1], q[j - 1]) <= 0;
      }
    }
  }

  /** Every record of the queue was made for a reference handed out before
      `bound`, and its expiry is a long. */
  predicate Issued(q: seq<Record>, bound: Handle)
  {
    forall i :: 0 <= i < |q| ==> q[i].handle < bound && IsLong(q[i].expiry)
  }

  /** Putting the record of the next reference keeps the queue issued, with
      the bound one higher. */
  lemma InsertIssued(q: seq<Record>, r: Record, bound: Handle)
    requires Issued(q, bound) && r.handle == bound && IsLong(r.expiry)
    ensures Issued(Insert(q, r), bound + 1)
  {
    var q' := Insert(q, r);
    InsertAdds(q, r);
    forall i | 0 <= i < |q'| ensures q'[i].handle < bound + 1 && IsLong(q'[i].expiry) {
      assert q'[i] in multiset(q');
    }
  }

  /** The number of records the delay queue hands out at time `now`: only
      the head is ever examined, so records are taken while the head is
      due and the first head that is not due holds back every record
      behind it. */
  function Due(q: seq<Record>, now: int): (n: nat)
    ensures n <= |q|
    ensures forall k :: 0 <= k < n ==> IsDue(q[k], now)
    ensures n < |q| ==> !IsDue(q[n], now)
  {
    if q == [] || !IsDue(q[0], now) then 0 else 1 + Due(q[1..], now)
  }

  /** As written, a record put with a period that wraps stalls the cleaner:
      put "a" at 1000 with the largest period, then "b" at 1000 with a
      period of 10; at 2000 "b" is due, yet "a" heads the queue, is not
      due, and nothing is released. */
  lemma WrappedExpiryStalls() returns (a: Record, b: Record)
    ensures a == Record("a", 0, AddLong(1000, LongMax))
    ensures b == Record("b", 1, AddLong(1000, 10))
    ensures Insert(Insert([], a), b) == [a, b]
    ensures IsDue(b, 2000) && !IsDue(a, 2000)
    ensures Due([a, b], 2000) == 0
  {
    a, b := Record("a", 0, AddLong(1000, LongMax)), Record("b", 1, AddLong(1000, 10));
    WrappedNeverDue(1000, LongMax, 2000, "a", 0);
    assert Insert([], a) == [a];
  }

  /** No remaining delay of the queue at `now` leaves the long range. */
  predicate NoWrap(q: seq<Record>, now: int)
  {
    forall k :: 0 <= k < |q| ==> IsLong(q[k].expiry - now)
  }

  /** When no expiry is so far from `now` that the remaining delay wraps
      (as with saturating expiries, see `SaturatedExpiryNoWrap`), the
      released records are exactly the due ones: a record of a sorted
      queue is due if and only if it lies within `Due(q, now)`. */
  lemma NoWrapReleasesAllDue(q: seq<Record>, now: int)
    requires Sorted(q) && NoWrap(q, now)
    ensures forall k :: 0 <= k < |q| ==> (IsDue(q[k], now) <==> k < Due(q, now))
    ensures forall k :: 0 <= k < |q| ==> (IsDue(q[k], now) <==> q[k].expiry <= now)
  {
    var n := Due(q, now);
    forall k | 0 <= k < |q| ensures IsDue(q[k], now) <==> k < n {
      if n <= k {
        assert CompareExpiry(q[n], q[k]) <= 0 || n == k;
      }
    }
  }

  /** With expiries computed by saturating addition from moments and
      periods that are not negative, every expiry lies between 0 and the
      largest long, and the cleaner releases exactly the due records. */
  lemma SaturatedReleasesAllDue(q: seq<Record>, now: int)
    requires Sorted(q) && 0 <= now <= LongMax
    requires forall k :: 0 <= k < |q| ==> 0 <= q[k].expiry <= LongMax
    ensures forall k :: 0 <= k < |q| ==> (IsDue(q[k], now) <==> k < Due(q, now))
  {
    NoWrapReleasesAllDue(q, now);
  }

  /** The cleaner's step for one released record: the key is removed only
      if it still holds the reference the record was made for. */
  function Expire<V>(store: map<string, Ref<V>>, r: Record): (s: map<string, Ref<V>>)
    ensures s.Keys <= store.Keys && forall k :: k in s ==> s[k] == store[k]
    ensures r.key in store && store[r.key].handle == r.handle ==> r.key !in s
    ensures forall k :: k in store && (k != r.key || store[k].handle != r.handle) ==> k in s
  {
    if r.key in store && store[r.key].handle == r.handle then store - {r.key} else store
  }

  /** The store after the records are released one after another. */
  function ExpireAll<V>(store: map<string, Ref<V>>, rs: seq<Record>): map<string, Ref<V>>
    decreases |rs|
  {
    if rs == [] then store else ExpireAll(Expire(store, rs[0]), rs[1..])
  }

  /** A released record whose key was put again since leaves the newer entry
      alone, and the entries of other keys are never touched. */
  lemma ExpireStale<V>(store: map<string, Ref<V>>, r: Record, key: string)
    requires key in store && (key != r.key || store[key].handle != r.handle)
    ensures key in Expire(store, r) && Expire(store, r)[key] == store[key]
  {
  }

  /** Releasing records only removes keys: a key that stays keeps its
      reference, and a key none of the records holds a reference of stays. */
  lemma {:induction false} ExpireAllOnlyRemoves<V>(store: map<string, Ref<V>>, rs: seq<Record>)
    ensures ExpireAll(store, rs).Keys <= store.Keys
    ensures forall k :: k in ExpireAll(store, rs) ==> ExpireAll(store, rs)[k] == store[k]
    ensures forall k :: k in store && (forall i :: 0 <= i < |rs| ==> rs[i].handle != store[k].handle) ==>
      k in ExpireAll(store, rs)
    decreases |rs|
  {
    if rs != [] {
      var s1 := Expire(store, rs[0]);
      ExpireAllOnlyRemoves(s1, rs[1..]);
      forall k | k in store && (forall i :: 0 <= i < |rs| ==> rs[i].handle != store[k].handle)
        ensures k in ExpireAll(store, rs)
      {
        assert rs[0].handle != store[k].handle;
        assert k in s1 && s1[k] == store[k];
        forall i | 0 <= i < |rs[1..]| ensures rs[1..][i].handle != s1[k].handle {
          assert rs[1..][i] == rs[i + 1];
        }
      }
    }
  }

  /** The key of the record still holds the reference the record was made
      for. */
  predicate Live<V>(store: map<string, Ref<V>>, r: Record)
  {
    r.key in store && store[r.key].handle == r.handle
  }

  /** Releasing a record removes its key when the key still holds the
      record's reference, whatever the other records do. */
  lemma {:induction false} ExpireAllRemovesReleased<V>(store: map<string, Ref<V>>, rs: seq<Record>, i: nat)
    requires i < |rs| && Live(store, rs[i])
    ensures rs[i].key !in ExpireAll(store, rs)
    decreases |rs|
  {
    var s1 := Expire(store, rs[0]);
    ExpireAllOnlyRemoves(s1, rs[1..]);
    if i > 0 && rs[i].key in s1 {
      assert rs[1..][i - 1] == rs[i];
      ExpireAllRemovesReleased(s1, rs[1..], i - 1);
    }
  }

  /** The time-to-live promise of the cache: when no delay wraps, a key
      whose record in the queue still matches its reference and is due by
      `now` is gone once the cleaner has released the due records. */
  lemma {:induction false} DueKeyExpires<V>(store: map<string, Ref<V>>, q: seq<Record>, now: int, i: nat)
    requires Sorted(q) && NoWrap(q, now)
    requires i < |q| && q[i].expiry <= now
    requires Live(store, q[i])
    ensures q[i].key !in ExpireAll(store, q[..Due(q, now)])
  {
    NoWrapReleasesAllDue(q, now);
    assert q[..Due(q, now)][i] == q[i];
    ExpireAllRemovesReleased(store, q[..Due(q, now)], i);
  }

  /** Every key whose matching record is due by `now` is gone once the due
      records are released, when no delay wraps. */
  lemma DueKeysExpire<V>(store: map<string, Ref<V>>, q: seq<Record>, now: int)
    requires Sorted(q)
    ensures NoWrap(q, now) ==>
      forall i :: 0 <= i < |q| && q[i].expiry <= now && Live(store, q[i]) ==>
        q[i].key !in ExpireAll(store, q[..Due(q, now)])
  {
    if NoWrap(q, now) {
      forall i | 0 <= i < |q| && q[i].expiry <= now && Live(store, q[i])
        ensures q[i].key !in ExpireAll(store, q[..Due(q, now)])
      {
        DueKeyExpires(store, q, now, i);
      }
    }
  }

  /** Releasing records in two rounds is releasing them all. */
  lemma {:induction false} ExpireAllAppend<V>(store: map<string, Ref<V>>, rs: seq<Record>, r: Record)
    ensures ExpireAll(store, rs + [r]) == Expire(ExpireAll(store, rs), r)
    decreases |rs|
  {
    if rs != [] {
      assert (rs + [r])[1..] == rs[1..] + [r];
      ExpireAllAppend(Expire(store, rs[0]), rs[1..], r);
    }
  }

  /** The cleaner's loop while it runs, at time `now`: the head of the
      queue is taken as long as it is due, and its key is removed if it
      still holds the record's reference. Exactly the due records are
      released, in queue order. */
  method ReleaseDue<V>(s0: map<string, Ref<V>>, q0: seq<Record>, now: int)
    returns (s: map<string, Ref<V>>, released: seq<Record>)
    requires Sorted(q0)
    ensures released == q0[..Due(q0, now)]
    ensures s == ExpireAll(s0, released)
  {
    s, released := s0, [];
    var queue := q0;
    ghost var n := Due(q0, now);
    while queue != [] && SubLong(queue[0].expiry, now) <= 0
      invariant |released| <= n
      invariant released == q0[..|released|] && queue == q0[|released|..]
      invariant s == ExpireAll(s0, released)
      decreases |queue|
    {
      var r := queue[0];
      assert q0[|released|..][1..] == q0[|released| + 1..];
      assert q0[..|released| + 1] == released + [r];
      ExpireAllAppend(s0, released, r);
      s := Expire(s, r);
      queue := queue[1..];
      released := released + [r];
    }
  }

  class DelayedCache<V> {
    /** The store: each key with its reference. */
    var store: map<string, Ref<V>>
    /** The delay queue of expiry records, in release order. */
    var queue: seq<Record>
    /** The identity the next reference receives. */
    var nextHandle: Handle
    /** Whether the cleaner thread still runs. */
    var cleanerAlive: bool

    /** The queue is in release order, its expiries are longs, and every
        reference in the store or the queue was handed out before. */
    ghost predicate Valid()
      reads this
    {
      && Sorted(queue) && Issued(queue, nextHandle)
      && (forall k :: k in store ==> store[k].handle < nextHandle)
    }

    /** A new cache is empty and its cleaner is started. */
    constructor()
      ensures Valid()
      ensures store == map[] && queue == [] && cleanerAlive
    {
      store, queue, nextHandle, cleanerAlive := map[], [], 0, true;
    }

    /** get (a null key is None): the value under the key, or none; a null
        key fails as the store's lookup does. */
    function Get(key: Option<string>): (r: Result<Option<V>>)
      reads this
      ensures r.Err? <==> key.None?
      ensures r.Err? ==> r.error == NullReference
      ensures r.Ok? ==> (r.value.Some? <==> key.value in store)
      ensures r.Ok? && r.value.Some? ==> r.value.value == store[key.value].value
    {
      if key.None? then Err(NullReference)
      else if key.value in store then Ok(Some(store[key.value].value))
      else Ok(None)
    }

    /** size: the number of keys in the store. */
    function Size(): (n: nat)
      reads this
      ensures n == |store.Keys|
      ensures n == 0 <==> store == map[]
    {
      |store|
    }

    /** add at time `now` (a null key or value is None): a null key changes
        nothing; a null value removes the key and enqueues nothing; otherwise
        the key gets a fresh reference to the value and exactly one expiry
        record, due at `now + period` in long arithmetic, joins the queue. */
    method Add(key: Option<string>, value: Option<V>, now: int, period: int)
      requires Valid() && IsLong(now) && IsLong(period)
      modifies this
      ensures Valid()
      ensures key.None? ==> store == old(store) && queue == old(queue)
      ensures key.Some? && value.None? ==>
        store == old(store) - {key.value} && queue == old(queue)
      ensures key.Some? && value.Some? ==>
        && Get(key) == Ok(value)
        && store == old(store)[key.value := Ref(old(nextHandle), value.value)]
        && queue == Insert(old(queue), Record(key.value, old(nextHandle), AddLong(now, period)))
        && multiset(queue) == multiset(old(queue)) + multiset{Record(key.value, old(nextHandle), AddLong(now, period))}
        && (forall i :: 0 <= i < |old(queue)| ==> old(queue)[i].handle != store[key.value].handle)
      ensures cleanerAlive == old(cleanerAlive)
    {
      if key.None? {
        return;
      }
      if value.None? {
        store := store - {key.value};
      } else {
        var expiryTime := AddLong(now, period);
        var reference := Ref(nextHandle, value.value);
        var r := Record(key.value, nextHandle, expiryTime);
        InsertAdds(queue, r);
        InsertSorted(queue, r);
        InsertIssued(queue, r, nextHandle);
        store, queue, nextHandle := store[key.value := reference], Insert(queue, r), nextHandle + 1;
      }
    }

    /** remove (a null key is None): the key is gone from the store and the
        queue is untouched; a null key fails as the store's removal does and
        changes nothing. */
    method Remove(key: Option<string>) returns (e: Option<Error>)
      requires Valid()
      modifies this
      ensures Valid()
      ensures e.Some? <==> key.None?
      ensures e.Some? ==> e.value == NullReference && store == old(store)
      ensures key.Some? ==> store == old(store) - {key.value} && Get(key) == Ok(None)
      ensures queue == old(queue) && cleanerAlive == old(cleanerAlive)
    {
      if key.None? {
        return Some(NullReference);
      }
      store := store - {key.value};
      return None;
    }

    /** clear: the store is emptied; the queue keeps its records. */
    method Clear()
      requires Valid()
      modifies this
      ensures Valid()
      ensures store == map[] && Size() == 0
      ensures queue == old(queue) && cleanerAlive == old(cleanerAlive)
    {
      store := map[];
    }

    /** terminate: the cleaner is interrupted if it runs, and both the queue
        and the store are emptied. */
    method Terminate()
      requires Valid()
      modifies this
      ensures Valid()
      ensures store == map[] && queue == [] && !cleanerAlive
    {
      if cleanerAlive {
        cleanerAlive := false;
      }
      queue := [];
      store := map[];
    }

    /** The cleaner at time `now`: while it runs and the head of the queue is
        due, the head is taken and its key removed if the key still holds
        the record's reference. Records are released in expiry order, and
        the head left behind is not yet due. */
    method Clean(now: int) returns (released: seq<Record>)
      requires Valid()
      modifies this
      ensures Valid()
      ensures released == (if old(cleanerAlive) then old(queue)[..Due(old(queue), now)] else [])
      ensures queue == old(queue)[|released|..]
      ensures store == ExpireAll(old(store), released)
      ensures Sorted(released) && forall i :: 0 <= i < |released| ==> IsDue(released[i], now)
      ensures cleanerAlive ==> queue == [] || !IsDue(queue[0], now)
      ensures cleanerAlive == old(cleanerAlive)
      ensures old(cleanerAlive) && NoWrap(old(queue), now) ==>
        forall i :: 0 <= i < |old(queue)| && old(queue)[i].expiry <= now && Live(old(store), old(queue)[i]) ==>
          Get(Some(old(queue)[i].key)) == Ok(None)
    {
      released := [];
      if !cleanerAlive {
        return;
      }
      ghost var s0, q0 := store, queue;
      var s;
      s, released := ReleaseDue(store, queue, now);
      ExpireAllOnlyRemoves(store, released);
      store, queue := s, queue[|released|..];
      DueKeysExpire(s0, q0, now);
    }
  }
}
