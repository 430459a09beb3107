/** Abstract model of the recency tracker `LRU` of src/lru.py.

    The tracker's whole observable state is its capacity and the order of its
    keys from most recently used (head) to least recently used (tail). This
    module states every operation of the tracker over that order, a
    duplicate-free sequence whose first element is the head. The module
    `LruArena` implements the same operations with prev/next links and proves
    that it refines this one.
 */
module LruModel {

  /** One element of a Python `bytes` value. */
  newtype Byte = b: int | 0 <= b < 256

  /** Keys are byte strings compared byte for byte. */
  type Key = seq<Byte>

  /** The one error the tracker raises: building it with a capacity that is
      not positive (a `ValueError` in the source). */
  datatype Error = CapacityNotPositive(capacity: int)

  datatype Result<T> = Ok(value: T) | Err(error: Error)

  predicate Distinct<T(==)>(s: seq<T>)
  {
    forall i, j :: 0 <= i < j < |s| ==> s[i] != s[j]
  }

  /** Cutting one element out of a duplicate-free sequence shifts the
      later elements down by one and keeps it duplicate-free. */
  lemma DistinctSplice<T>(s: seq<T>, i: int)
    requires Distinct(s) && 0 <= i < |s|
    ensures |s[..i] + s[i + 1..]| == |s| - 1
    ensures forall j {:trigger (s[..i] + s[i + 1..])[j]} :: 0 <= j < i ==> (s[..i] + s[i + 1..])[j] == s[j]
    ensures forall j {:trigger (s[..i] + s[i + 1..])[j]} :: i <= j < |s| - 1 ==> (s[..i] + s[i + 1..])[j] == s[j + 1]
    ensures Distinct(s[..i] + s[i + 1..])
  {
  }

  function Elems<T>(s: seq<T>): set<T>
  {
    set x | x in s
  }

  /** The tracker: `order[0]` is the head, `order[|order| - 1]` the tail. */
  datatype Lru = Lru(capacity: int, order: seq<Key>)

  /** What every public operation keeps: a positive capacity, each key at
      most once, and no more keys than the capacity. */
  predicate Valid(l: Lru)
  {
    && 0 < l.capacity
    && Distinct(l.order)
    && |l.order| <= l.capacity
  }

  /** The tracker after an operation, with the keys that operation evicted,
      in the order they were removed. */
  datatype Outcome = Outcome(lru: Lru, evicted: seq<Key>)

  /** A prefix that stays and the keys that were cut off, tail first. */
  datatype Eviction = Eviction(kept: seq<Key>, evicted: seq<Key>)

  lemma {:induction false} DistinctCard<T>(s: seq<T>)
    requires Distinct(s)
    ensures |Elems(s)| == |s|
  {
    if |s| > 0 {
      DistinctCard(s[1..]);
      assert Elems(s) == {s[0]} + Elems(s[1..]);
      assert s[0] !in Elems(s[1..]);
    }
  }

  /** Construction: a non-positive capacity is refused, otherwise the
      tracker starts empty. */
  function New(capacity: int): (r: Result<Lru>)
    ensures r.Ok? <==> 0 < capacity
    ensures r.Ok? ==> Valid(r.value) && r.value.capacity == capacity && |r.value.order| == 0
    ensures r.Err? ==> r.error == CapacityNotPositive(capacity)
  {
    if capacity <= 0 then Err(CapacityNotPositive(capacity)) else Ok(Lru(capacity, []))
  }

  /** `s` without `k`, the other keys in their original order. */
  function Remove(s: seq<Key>, k: Key): (r: seq<Key>)
    ensures forall x :: x in r <==> x in s && x != k
    ensures k !in s ==> r == s
    ensures Distinct(s) ==> Distinct(r)
    ensures Distinct(s) && k in s ==> |r| == |s| - 1
  {
    if |s| == 0 then []
    else if s[0] == k then Remove(s[1..], k)
    else
      var rest := Remove(s[1..], k);
      assert Distinct(s) ==> s[0] !in s[1..];
      [s[0]] + rest
  }

  /** In a duplicate-free sequence, removing a key closes the gap it leaves
      and changes nothing else. */
  lemma {:induction false} RemoveAt(s: seq<Key>, i: int)
    requires Distinct(s) && 0 <= i < |s|
    ensures Remove(s, s[i]) == s[..i] + s[i + 1..]
  {
    if i == 0 {
      assert s[0] !in s[1..];
    } else {
      RemoveAt(s[1..], i - 1);
      assert s[1..][i - 1] == s[i];
      assert s[1..][..i - 1] + s[1..][i..] == s[1..i] + s[i + 1..];
      assert s[..i] + s[i + 1..] == [s[0]] + (s[1..i] + s[i + 1..]);
    }
  }

  /** `touch`: a present key moves to the head, every other key keeps its
      place relative to the others; an absent key changes nothing. */
  function Touch(l: Lru, k: Key): (r: Lru)
    requires Valid(l)
    ensures Valid(r) && r.capacity == l.capacity
    ensures Elems(r.order) == Elems(l.order) && |r.order| == |l.order|
    ensures k !in l.order ==> r == l
    ensures k in l.order ==> r.order[0] == k
    ensures Remove(r.order, k) == Remove(l.order, k)
  {
    if k in l.order then l.(order := [k] + Remove(l.order, k)) else l
  }

  /** The position-wise form of `Touch`: the key at position `i` is taken
      out and put in front of the others. */
  lemma TouchAt(l: Lru, i: int)
    requires Valid(l) && 0 <= i < |l.order|
    ensures Touch(l, l.order[i]).order == [l.order[i]] + (l.order[..i] + l.order[i + 1..])
  {
    RemoveAt(l.order, i);
  }

  /** The eviction loop of `create`: while there are more keys than the
      capacity, the tail is removed and appended to the evicted list. */
  function EvictFromTail(s: seq<Key>, capacity: nat): (e: Eviction)
    ensures |s| <= capacity ==> e.kept == s && e.evicted == []
    ensures capacity < |s| ==> e.kept == s[..capacity]
    ensures capacity < |s| ==> |e.evicted| == |s| - capacity
    ensures capacity < |s| ==> forall j :: 0 <= j < |e.evicted| ==> e.evicted[j] == s[|s| - 1 - j]
    decreases |s|
  {
    if |s| <= capacity then Eviction(s, [])
    else
      var rest := EvictFromTail(s[..|s| - 1], capacity);
      Eviction(rest.kept, [s[|s| - 1]] + rest.evicted)
  }

  /** One turn of the eviction loop: the last key is evicted first, and
      the rest is the eviction of what precedes it. */
  lemma EvictLast(s: seq<Key>, capacity: nat)
    requires capacity < |s|
    ensures EvictFromTail(s, capacity).kept == EvictFromTail(s[..|s| - 1], capacity).kept
    ensures EvictFromTail(s, capacity).evicted == [s[|s| - 1]] + EvictFromTail(s[..|s| - 1], capacity).evicted
  {
  }

  lemma AppendAssoc<T>(a: seq<T>, b: seq<T>, c: seq<T>)
    ensures a + b + c == a + (b + c)
  {
  }

  /** `create`: a present key is touched and nothing is evicted; a new key
      becomes the head, and if that overflows the capacity the tail key is
      evicted. */
  function Create(l: Lru, k: Key): (r: Outcome)
    requires Valid(l)
    ensures Valid(r.lru) && r.lru.capacity == l.capacity
    ensures |r.lru.order| > 0 && r.lru.order[0] == k
    ensures k in l.order ==> r.lru == Touch(l, k) && r.evicted == []
    ensures k !in l.order && |l.order| < l.capacity ==>
              r.lru.order == [k] + l.order && r.evicted == []
    ensures k !in l.order && |l.order| == l.capacity ==>
              && r.lru.order == [k] + l.order[..|l.order| - 1]
              && r.evicted == [l.order[|l.order| - 1]]
    ensures forall e :: e in r.evicted ==> e in l.order && e !in r.lru.order
    ensures forall x :: x in r.lru.order ==> x == k || x in l.order
    ensures |r.evicted| <= 1
  {
    if k in l.order then Outcome(Touch(l, k), [])
    else
      var grown := [k] + l.order;
      assert Distinct(grown);
      var e := EvictFromTail(grown, l.capacity);
      assert e.kept == grown[..|e.kept|];
      Outcome(l.(order := e.kept), e.evicted)
  }

  /** `delete`: a present key is removed, the others keep their order; an
      absent key changes nothing. */
  function Delete(l: Lru, k: Key): (r: Lru)
    requires Valid(l)
    ensures Valid(r) && r.capacity == l.capacity
    ensures forall x :: x in r.order <==> x in l.order && x != k
    ensures k !in l.order ==> r == l
    ensures k in l.order ==> |r.order| == |l.order| - 1
  {
    if k in l.order then l.(order := Remove(l.order, k)) else l
  }

  /** The position-wise form of `Delete`. */
  lemma DeleteAt(l: Lru, i: int)
    requires Valid(l) && 0 <= i < |l.order|
    ensures Delete(l, l.order[i]).order == l.order[..i] + l.order[i + 1..]
  {
    RemoveAt(l.order, i);
  }

  /** `touch` and `delete` are idempotent: applying either a second time
      changes nothing. */
  lemma Idempotent(l: Lru, k: Key)
    requires Valid(l)
    ensures Touch(Touch(l, k), k) == Touch(l, k)
    ensures Delete(Delete(l, k), k) == Delete(l, k)
  {
  }

  /** A call on the tracker, as a caller makes it. */
  datatype Call = TouchCall(key: Key) | CreateCall(key: Key) | DeleteCall(key: Key)

  function Step(l: Lru, c: Call): (r: Outcome)
    requires Valid(l)
    ensures Valid(r.lru) && r.lru.capacity == l.capacity
    ensures !c.CreateCall? ==> r.evicted == []
    ensures forall x :: x in r.lru.order ==> x in l.order || c == CreateCall(x)
    ensures forall e :: e in r.evicted ==> e in l.order
  {
    match c
    case TouchCall(k) => Outcome(Touch(l, k), [])
    case CreateCall(k) => Create(l, k)
    case DeleteCall(k) => Outcome(Delete(l, k), [])
  }

  /** A sequence of calls applied in order, with every eviction they caused,
      in the order they happened. No call ever leaves more keys than the
      capacity, and no key is tracked or evicted that was neither tracked
      at the start nor created by one of the calls. */
  function Run(l: Lru, calls: seq<Call>): (r: Outcome)
    requires Valid(l)
    ensures Valid(r.lru) && r.lru.capacity == l.capacity
    ensures forall x :: x in r.lru.order ==> x in l.order || CreateCall(x) in calls
    ensures forall e :: e in r.evicted ==> e in l.order || CreateCall(e) in calls
    decreases |calls|
  {
    if |calls| == 0 then Outcome(l, [])
    else
      var init := calls[..|calls| - 1];
      var before := Run(l, init);
      var last := Step(before.lru, calls[|calls| - 1]);
      assert forall c :: c in init ==> c in calls;
      Outcome(last.lru, before.evicted + last.evicted)
  }

  /** One `create` call per key, in the order of `keys`. */
  function Creates(keys: seq<Key>): (calls: seq<Call>)
    ensures |calls| == |keys|
    ensures forall i :: 0 <= i < |keys| ==> calls[i] == CreateCall(keys[i])
  {
    seq(|keys|, i requires 0 <= i < |keys| => CreateCall(keys[i]))
  }

  function Reverse(s: seq<Key>): (r: seq<Key>)
    ensures |r| == |s|
    ensures forall i :: 0 <= i < |s| ==> r[i] == s[|s| - 1 - i]
  {
    if |s| == 0 then [] else [s[|s| - 1]] + Reverse(s[..|s| - 1])
  }

  /** Creating distinct keys on an empty tracker while they still fit
      evicts nothing and leaves them in reverse order of creation, the last
      one at the head. */
  lemma {:induction false} CreatesFit(l: Lru, keys: seq<Key>)
    requires Valid(l) && |l.order| == 0
    requires Distinct(keys) && |keys| <= l.capacity
    ensures Run(l, Creates(keys)) == Outcome(l.(order := Reverse(keys)), [])
  {
    if |keys| > 0 {
      var init := keys[..|keys| - 1];
      var k := keys[|keys| - 1];
      assert Creates(keys)[..|keys| - 1] == Creates(init);
      CreatesFit(l, init);
      var before := l.(order := Reverse(init));
      assert k !in before.order;
      assert Reverse(keys) == [k] + Reverse(init);
    }
  }

  /** Reversing all but the first key: the newest key, then the older ones
      except the first. */
  lemma ReverseTail(keys: seq<Key>)
    requires 1 < |keys|
    ensures Reverse(keys[1..]) == [keys[|keys| - 1]] + Reverse(keys[..|keys| - 1])[..|keys| - 2]
  {
  }

  /** Creating one key more than the capacity, all distinct and with no
      touch in between, evicts exactly the first key created. */
  lemma OverflowEvictsFirst(capacity: int, keys: seq<Key>)
    requires 0 < capacity && Distinct(keys) && |keys| == capacity + 1
    ensures Run(New(capacity).value, Creates(keys)).evicted == [keys[0]]
    ensures Run(New(capacity).value, Creates(keys)).lru.order == Reverse(keys[1..])
  {
    var l := New(capacity).value;
    var init := keys[..capacity];
    var k := keys[capacity];
    assert Creates(keys)[..capacity] == Creates(init);
    CreatesFit(l, init);
    var before := l.(order := Reverse(init));
    assert Run(l, Creates(keys)) == Outcome(Create(before, k).lru, [] + Create(before, k).evicted);
    assert k !in before.order by {
      assert forall i :: 0 <= i < capacity ==> init[i] == keys[i];
    }
    assert before.order[capacity - 1] == keys[0];
    ReverseTail(keys);
  }
}
