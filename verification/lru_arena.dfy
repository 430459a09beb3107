/** The linked implementation of the recency tracker of src/lru.py, with
    nodes in an arena of slots and prev/next slot numbers in place of object
    references.

    A `_Node` of the source is a slot of `nodes`; `Nil` stands for `None`.
    Creating a key takes a fresh slot at the end of the arena, as the source
    allocates a fresh node; the slot of a deleted or evicted key is never
    linked again, while a touched key keeps its slot. Each operation
    returns the new state instead of updating the object in place.

    `New`, `Touch`, `Create` and `Delete` are proved to refine the
    functions of the same names in `LruModel`, the eviction loop
    `EvictOverflow` refines `LruModel.EvictFromTail`, and `Len`, `Contains`
    and `KeysMruToLru` are stated against the abstract order.
    `Represents(a, l, s)` says that `l` is the walk along the
    links of `a` from the head, that the keys of its nodes are exactly the
    order of the abstract tracker `s`, and that the key index agrees with
    the nodes on that walk. The walk is passed along as a ghost argument.
 */
module LruArena {
  import LruModel

  type Key = LruModel.Key

  /** The slot number standing for `None`. */
  const Nil: int := -1

  datatype Node = Node(key: Key, prev: int, next: int)

  /** `index` is the source's `_map`, from key to the slot of its node. */
  datatype Arena = Arena(capacity: int, nodes: seq<Node>, index: map<Key, int>, head: int, tail: int)

  predicate Slot(a: Arena, p: int)
  {
    0 <= p < |a.nodes|
  }

  predicate Link(a: Arena, p: int)
  {
    p == Nil || Slot(a, p)
  }

  /** Every link and every index entry names a slot of the arena (or `Nil`). */
  predicate WellFormed(a: Arena)
  {
    && Link(a, a.head)
    && Link(a, a.tail)
    && (forall p :: 0 <= p < |a.nodes| ==> Link(a, a.nodes[p].prev) && Link(a, a.nodes[p].next))
    && (forall k :: k in a.index ==> Slot(a, a.index[k]))
  }

  /** The nodes of `b` hold the same keys as those of `a`. */
  predicate KeysKept(a: Arena, b: Arena)
  {
    && |b.nodes| == |a.nodes|
    && forall p :: 0 <= p < |a.nodes| ==> b.nodes[p].key == a.nodes[p].key
  }

  /** The slots `l` form the list from head to tail: distinct, each one's
      prev and next are its neighbours in `l`, and head and tail are its
      ends (`Nil` when `l` is empty). */
  ghost predicate Chain(a: Arena, l: seq<int>)
  {
    && (forall i :: 0 <= i < |l| ==> Slot(a, l[i]))
    && LruModel.Distinct(l)
    && a.head == (if |l| == 0 then Nil else l[0])
    && a.tail == (if |l| == 0 then Nil else l[|l| - 1])
    && (forall i {:trigger a.nodes[l[i]]} :: 0 <= i < |l| ==> a.nodes[l[i]].prev == (if i == 0 then Nil else l[i - 1]))
    && (forall i {:trigger a.nodes[l[i]]} :: 0 <= i < |l| ==> a.nodes[l[i]].next == (if i == |l| - 1 then Nil else l[i + 1]))
  }

  /** Every indexed key names a listed slot whose node holds that key. */
  ghost predicate IndexSound(a: Arena, l: seq<int>)
  {
    forall k :: k in a.index ==> a.index[k] in l && Slot(a, a.index[k]) && a.nodes[a.index[k]].key == k
  }

  /** The key of every listed node is indexed to that node's slot. */
  ghost predicate IndexComplete(a: Arena, l: seq<int>)
  {
    forall i {:trigger a.nodes[l[i]]} :: 0 <= i < |l| ==>
      && Slot(a, l[i])
      && a.nodes[l[i]].key in a.index
      && a.index[a.nodes[l[i]].key] == l[i]
  }

  /** The index maps exactly the keys of the listed nodes to their slots. */
  ghost predicate Indexed(a: Arena, l: seq<int>)
  {
    IndexSound(a, l) && IndexComplete(a, l)
  }

  ghost predicate Linked(a: Arena, l: seq<int>)
  {
    Chain(a, l) && Indexed(a, l)
  }

  /** The nodes of the slots `l` hold the keys `o`, in order. */
  ghost predicate Spells(a: Arena, l: seq<int>, o: seq<Key>)
  {
    && |l| == |o|
    && forall i {:trigger o[i]} {:trigger a.nodes[l[i]]} :: 0 <= i < |l| ==> Slot(a, l[i]) && a.nodes[l[i]].key == o[i]
  }

  /** `a` implements the abstract tracker `s`, and `l` is the list of its
      slots from head to tail. */
  ghost predicate Represents(a: Arena, l: seq<int>, s: LruModel.Lru)
  {
    && LruModel.Valid(s)
    && WellFormed(a)
    && a.capacity == s.capacity
    && Linked(a, l)
    && Spells(a, l, s.order)
  }

  // ---------------------------------------------------------------------
  // Facts about the representation

  /** A key is indexed exactly when it is on the list. */
  lemma IndexedKey(a: Arena, l: seq<int>, o: seq<Key>, k: Key)
    requires Linked(a, l) && Spells(a, l, o)
    ensures k in a.index <==> k in o
  {
  }

  /** The listed keys are distinct, and there are as many indexed keys as
      slots on the list. */
  lemma LinkedFacts(a: Arena, l: seq<int>, o: seq<Key>)
    requires Linked(a, l) && Spells(a, l, o)
    ensures LruModel.Distinct(o)
    ensures |a.index| == |l|
  {
    forall i, j | 0 <= i < j < |o|
      ensures o[i] != o[j]
    {
      assert a.nodes[l[i]].key == o[i] && a.nodes[l[j]].key == o[j];
      assert a.index[a.nodes[l[i]].key] == l[i] && a.index[a.nodes[l[j]].key] == l[j];
    }
    forall k | true
      ensures k in a.index.Keys <==> k in LruModel.Elems(o)
    {
      IndexedKey(a, l, o, k);
    }
    assert a.index.Keys == LruModel.Elems(o);
    LruModel.DistinctCard(o);
  }

  /** `head` and `tail` are `None` exactly when the index is empty. This
      needs no bound on the number of keys, so it holds inside the
      eviction loop of `create`, where the index is over capacity and the
      loop relies on the tail being present. */
  lemma EmptyIffNoHead(a: Arena, l: seq<int>, o: seq<Key>)
    requires WellFormed(a) && Linked(a, l) && Spells(a, l, o)
    ensures a.head == Nil <==> |a.index| == 0
    ensures a.tail == Nil <==> |a.index| == 0
  {
    LinkedFacts(a, l, o);
    if |l| > 0 {
      assert a.head == l[0] && Slot(a, l[0]);
      assert a.tail == l[|l| - 1] && Slot(a, l[|l| - 1]);
    }
  }

  // ---------------------------------------------------------------------
  // `_detach` and `_attach_front`

  /** `_detach`: unlink the node in slot `n` from its neighbours (or from
      the head or tail) and clear its own links. */
  function Detach(a: Arena, n: int): (d: Arena)
    requires WellFormed(a) && Slot(a, n)
    ensures WellFormed(d) && KeysKept(a, d) && d.index == a.index
  {
    var node := a.nodes[n];
    var d1 :=
      if node.prev != Nil then a.(nodes := a.nodes[node.prev := a.nodes[node.prev].(next := node.next)])
      else a.(head := node.next);
    var d2 :=
      if node.next != Nil then d1.(nodes := d1.nodes[node.next := d1.nodes[node.next].(prev := node.prev)])
      else d1.(tail := node.prev);
    d2.(nodes := d2.nodes[n := node.(prev := Nil, next := Nil)])
  }

  /** `_attach_front`: make the node in slot `n` the head. */
  function AttachFront(a: Arena, n: int): (f: Arena)
    requires WellFormed(a) && Slot(a, n)
    ensures WellFormed(f) && KeysKept(a, f) && f.index == a.index
    ensures f.head == n
  {
    var nodes := a.nodes[n := a.nodes[n].(prev := Nil, next := a.head)];
    var nodes' := if a.head != Nil then nodes[a.head := nodes[a.head].(prev := n)] else nodes;
    a.(nodes := nodes', head := n, tail := if a.tail == Nil then n else a.tail)
  }

  /** What `Detach` changes: the neighbours' links, head or tail, and the
      detached node's own links; every other slot is untouched. */
  lemma DetachEffect(a: Arena, n: int)
    requires WellFormed(a) && Slot(a, n)
    requires a.nodes[n].prev != n && a.nodes[n].next != n
    requires a.nodes[n].prev != Nil ==> a.nodes[n].prev != a.nodes[n].next
    ensures var p, q, d := a.nodes[n].prev, a.nodes[n].next, Detach(a, n);
      && d.head == (if p == Nil then q else a.head)
      && d.tail == (if q == Nil then p else a.tail)
      && d.nodes[n] == a.nodes[n].(prev := Nil, next := Nil)
      && (p != Nil ==> d.nodes[p] == a.nodes[p].(next := q))
      && (q != Nil ==> d.nodes[q] == a.nodes[q].(prev := p))
      && (forall m :: 0 <= m < |a.nodes| && m != n && m != p && m != q ==> d.nodes[m] == a.nodes[m])
  {
  }

  /** Detaching the `i`-th listed node leaves the list without it. */
  lemma DetachUnlinks(a: Arena, l: seq<int>, i: int)
    requires WellFormed(a) && Chain(a, l) && 0 <= i < |l|
    ensures Chain(Detach(a, l[i]), l[..i] + l[i + 1..])
  {
  }

  /** What `AttachFront` changes: the new head's links, the old head's
      `prev`, and head and tail; every other slot is untouched. */
  lemma AttachFrontEffect(a: Arena, n: int)
    requires WellFormed(a) && Slot(a, n) && a.head != n
    ensures var f := AttachFront(a, n);
      && f.head == n
      && f.tail == (if a.tail == Nil then n else a.tail)
      && f.nodes[n] == a.nodes[n].(prev := Nil, next := a.head)
      && (a.head != Nil ==> f.nodes[a.head] == a.nodes[a.head].(prev := n))
      && (forall m :: 0 <= m < |a.nodes| && m != n && m != a.head ==> f.nodes[m] == a.nodes[m])
  {
  }

  /** Attaching a slot that is not on the list puts it in front of it. */
  lemma AttachFrontLinks(a: Arena, l: seq<int>, n: int)
    requires WellFormed(a) && Chain(a, l) && Slot(a, n) && n !in l
    ensures Chain(AttachFront(a, n), [n] + l)
  {
  }

  // ---------------------------------------------------------------------
  // State changes, proved against the abstract operations

  /** A node detached and its key dropped from the index: the common step
      of `delete` and of each eviction. */
  function Forget(a: Arena, n: int): (r: Arena)
    requires WellFormed(a) && Slot(a, n)
    ensures WellFormed(r) && KeysKept(a, r)
    ensures r.index == a.index - {a.nodes[n].key}
  {
    var d := Detach(a, n);
    d.(index := d.index - {a.nodes[n].key})
  }

  lemma ForgetIndexSound(a: Arena, l: seq<int>, i: int)
    requires WellFormed(a) && IndexSound(a, l) && 0 <= i < |l| && Slot(a, l[i])
    ensures IndexSound(Forget(a, l[i]), l[..i] + l[i + 1..])
  {
  }

  lemma ForgetIndexComplete(a: Arena, l: seq<int>, o: seq<Key>, i: int)
    requires WellFormed(a) && Linked(a, l) && Spells(a, l, o) && 0 <= i < |l|
    ensures IndexComplete(Forget(a, l[i]), l[..i] + l[i + 1..])
    ensures Spells(Forget(a, l[i]), l[..i] + l[i + 1..], o[..i] + o[i + 1..])
  {
    var n := l[i];
    var gone := a.nodes[n].key;
    var r := Forget(a, n);
    var l' := l[..i] + l[i + 1..];
    var o' := o[..i] + o[i + 1..];
    LruModel.DistinctSplice(l, i);
    forall j | 0 <= j < |l'|
      ensures Slot(r, l'[j]) && r.nodes[l'[j]].key in r.index && r.index[r.nodes[l'[j]].key] == l'[j]
      ensures r.nodes[l'[j]].key == o'[j]
    {
      var j' := if j < i then j else j + 1;
      assert l'[j] == l[j'] && o'[j] == o[j'];
      assert a.nodes[l[j']].key == o[j'] && a.index[a.nodes[l[j']].key] == l[j'];
      assert a.nodes[l[j']].key != gone by {
        assert a.index[gone] == n;
      }
    }
  }

  /** Forgetting the `i`-th listed node leaves the list, and its keys,
      without it. */
  lemma ForgetLinked(a: Arena, l: seq<int>, o: seq<Key>, i: int)
    requires WellFormed(a) && Linked(a, l) && Spells(a, l, o) && 0 <= i < |l|
    ensures Linked(Forget(a, l[i]), l[..i] + l[i + 1..])
    ensures Spells(Forget(a, l[i]), l[..i] + l[i + 1..], o[..i] + o[i + 1..])
  {
    DetachUnlinks(a, l, i);
    ForgetIndexSound(a, l, i);
    ForgetIndexComplete(a, l, o, i);
  }

  /** The tail is the last listed node; forgetting it leaves the list,
      and its keys, without their last element. */
  lemma ForgetTail(a: Arena, l: seq<int>, o: seq<Key>)
    requires WellFormed(a) && Linked(a, l) && Spells(a, l, o) && |l| > 0
    ensures a.tail == l[|l| - 1] && Slot(a, a.tail) && a.nodes[a.tail].key == o[|o| - 1]
    ensures Linked(Forget(a, a.tail), l[..|l| - 1])
    ensures Spells(Forget(a, a.tail), l[..|l| - 1], o[..|o| - 1])
    ensures |Forget(a, a.tail).index| == |a.index| - 1
  {
    var i := |l| - 1;
    assert a.index[a.nodes[l[i]].key] == l[i];
    assert a.nodes[l[i]].key == o[i];
    ForgetLinked(a, l, o, i);
    assert l[..i] + l[i + 1..] == l[..i];
    assert o[..i] + o[i + 1..] == o[..i];
  }

  /** The slot of the `i`-th listed node is not on the rest of the list. */
  lemma SpliceLeaves(l: seq<int>, i: int)
    requires LruModel.Distinct(l) && 0 <= i < |l|
    ensures l[i] !in l[..i] + l[i + 1..]
  {
  }

  /** The list after moving its `i`-th slot to the front. */
  function MoveToFront(l: seq<int>, i: int): seq<int>
    requires 0 <= i < |l|
  {
    [l[i]] + (l[..i] + l[i + 1..])
  }

  lemma MoveIndexSound(a: Arena, l: seq<int>, i: int)
    requires WellFormed(a) && IndexSound(a, l) && 0 <= i < |l| && Slot(a, l[i])
    ensures IndexSound(AttachFront(Detach(a, l[i]), l[i]), MoveToFront(l, i))
  {
  }

  lemma MoveIndexComplete(a: Arena, l: seq<int>, o: seq<Key>, i: int)
    requires WellFormed(a) && Linked(a, l) && Spells(a, l, o) && 0 <= i < |l|
    ensures IndexComplete(AttachFront(Detach(a, l[i]), l[i]), MoveToFront(l, i))
    ensures Spells(AttachFront(Detach(a, l[i]), l[i]), MoveToFront(l, i), [o[i]] + (o[..i] + o[i + 1..]))
  {
    var n := l[i];
    var f := AttachFront(Detach(a, n), n);
    var m := MoveToFront(l, i);
    var o' := [o[i]] + (o[..i] + o[i + 1..]);
    forall j | 0 <= j < |m|
      ensures Slot(f, m[j]) && f.nodes[m[j]].key in f.index && f.index[f.nodes[m[j]].key] == m[j]
      ensures f.nodes[m[j]].key == o'[j]
    {
      var j' := if j == 0 then i else if j - 1 < i then j - 1 else j;
      assert m[j] == l[j'] && o'[j] == o[j'];
      assert a.nodes[l[j']].key == o[j'] && a.index[a.nodes[l[j']].key] == l[j'];
    }
  }

  /** Moving a present key to the front is `LruModel.Touch`. */
  lemma MoveToFrontRefines(a: Arena, l: seq<int>, s: LruModel.Lru, k: Key) returns (m: seq<int>)
    requires Represents(a, l, s) && k in a.index
    ensures Represents(AttachFront(Detach(a, a.index[k]), a.index[k]), m, LruModel.Touch(s, k))
  {
    var n := a.index[k];
    var i :| 0 <= i < |l| && l[i] == n;
    assert s.order[i] == k;
    DetachUnlinks(a, l, i);
    SpliceLeaves(l, i);
    AttachFrontLinks(Detach(a, n), l[..i] + l[i + 1..], n);
    MoveIndexSound(a, l, i);
    MoveIndexComplete(a, l, s.order, i);
    LruModel.TouchAt(s, i);
    m := MoveToFront(l, i);
  }

  /** `_Node(key)` stored in the index and attached at the front: a fresh
      slot for a key not yet present. */
  function InsertFront(a: Arena, k: Key): (r: Arena)
    requires WellFormed(a)
    ensures WellFormed(r) && r.head == |a.nodes|
    ensures r.index == a.index[k := |a.nodes|] && r.nodes[|a.nodes|].key == k
    ensures a.tail == Nil ==> r.tail == |a.nodes|
    ensures a.tail != Nil ==> r.tail == a.tail
  {
    AttachFront(Grow(a, k), |a.nodes|)
  }

  /** The arena with a fresh slot for `k`, indexed but not yet linked. */
  function Grow(a: Arena, k: Key): (g: Arena)
    requires WellFormed(a)
    ensures WellFormed(g) && |g.nodes| == |a.nodes| + 1 && g.index == a.index[k := |a.nodes|]
    ensures g.nodes[..|a.nodes|] == a.nodes && g.nodes[|a.nodes|] == Node(k, Nil, Nil)
    ensures g.head == a.head && g.tail == a.tail
  {
    a.(nodes := a.nodes + [Node(k, Nil, Nil)], index := a.index[k := |a.nodes|])
  }

  lemma GrowChain(a: Arena, l: seq<int>, k: Key)
    requires WellFormed(a) && Chain(a, l)
    ensures Chain(Grow(a, k), l) && |a.nodes| !in l
  {
  }

  lemma InsertIndexSound(a: Arena, l: seq<int>, k: Key)
    requires WellFormed(a) && Linked(a, l)
    ensures IndexSound(AttachFront(Grow(a, k), |a.nodes|), [|a.nodes|] + l)
  {
  }

  lemma InsertIndexComplete(a: Arena, l: seq<int>, o: seq<Key>, k: Key)
    requires WellFormed(a) && Linked(a, l) && Spells(a, l, o) && k !in a.index
    ensures IndexComplete(AttachFront(Grow(a, k), |a.nodes|), [|a.nodes|] + l)
    ensures Spells(AttachFront(Grow(a, k), |a.nodes|), [|a.nodes|] + l, [k] + o)
  {
    var r := AttachFront(Grow(a, k), |a.nodes|);
    var m := [|a.nodes|] + l;
    forall j | 0 <= j < |m|
      ensures Slot(r, m[j]) && r.nodes[m[j]].key in r.index && r.index[r.nodes[m[j]].key] == m[j]
      ensures r.nodes[m[j]].key == ([k] + o)[j]
    {
      if j > 0 {
        assert m[j] == l[j - 1];
        assert a.nodes[l[j - 1]].key == o[j - 1];
        assert a.index[a.nodes[l[j - 1]].key] == l[j - 1];
      }
    }
  }

  /** Inserting a new key at the front puts it before the listed keys. */
  lemma InsertFrontLinked(a: Arena, l: seq<int>, s: LruModel.Lru, k: Key)
    requires Represents(a, l, s) && k !in a.index
    ensures Linked(InsertFront(a, k), [|a.nodes|] + l)
    ensures Spells(InsertFront(a, k), [|a.nodes|] + l, [k] + s.order)
  {
    GrowChain(a, l, k);
    AttachFrontLinks(Grow(a, k), l, |a.nodes|);
    InsertIndexSound(a, l, k);
    InsertIndexComplete(a, l, s.order, k);
  }

  // ---------------------------------------------------------------------
  // The public operations

  /** `LRU(capacity)`: refused unless the capacity is positive; otherwise
      empty, with no head and no tail. */
  function New(capacity: int): (r: LruModel.Result<Arena>)
    ensures r.Ok? <==> 0 < capacity
    ensures r.Err? ==> r.error == LruModel.CapacityNotPositive(capacity)
    ensures r.Ok? ==> Represents(r.value, [], LruModel.New(capacity).value)
    ensures r.Ok? ==> r.value.head == Nil && r.value.tail == Nil && |r.value.index| == 0
  {
    if capacity <= 0 then LruModel.Err(LruModel.CapacityNotPositive(capacity))
    else
      var a := Arena(capacity, [], map[], Nil, Nil);
      assert Linked(a, []) && Spells(a, [], []);
      LruModel.Ok(a)
  }

  /** `__len__`: the size of the index, which is the number of tracked
      keys and never more than the capacity. */
  method Len(a: Arena, ghost l: seq<int>, ghost s: LruModel.Lru) returns (n: int)
    requires Represents(a, l, s)
    ensures n == |s.order| && n <= a.capacity
  {
    LinkedFacts(a, l, s.order);
    n := |a.index|;
  }

  /** `__contains__`: membership in the index is membership in the order. */
  method Contains(a: Arena, key: Key, ghost l: seq<int>, ghost s: LruModel.Lru) returns (b: bool)
    requires Represents(a, l, s)
    ensures b <==> key in s.order
  {
    IndexedKey(a, l, s.order, key);
    b := key in a.index;
  }

  /** `touch`. */
  method Touch(a: Arena, key: Key, ghost l: seq<int>, ghost s: LruModel.Lru) returns (r: Arena, ghost l': seq<int>)
    requires Represents(a, l, s)
    ensures Represents(r, l', LruModel.Touch(s, key))
    ensures r.index == a.index
    ensures key in a.index ==> r.head == a.index[key]
    ensures key !in a.index ==> r == a
  {
    IndexedKey(a, l, s.order, key);
    if key !in a.index {
      return a, l;
    }
    var n := a.index[key];
    r := Detach(a, n);
    r := AttachFront(r, n);
    l' := MoveToFrontRefines(a, l, s, key);
  }

  /** The eviction loop of `create`: while the index holds more keys than
      the capacity, forget the tail node and report its key. */
  method EvictOverflow(a: Arena, ghost l: seq<int>, ghost o: seq<Key>)
    returns (r: Arena, evicted: seq<Key>, ghost l': seq<int>)
    requires WellFormed(a) && 0 < a.capacity && Linked(a, l) && Spells(a, l, o)
    ensures WellFormed(r) && r.capacity == a.capacity
    ensures Linked(r, l') && Spells(r, l', LruModel.EvictFromTail(o, a.capacity).kept)
    ensures evicted == LruModel.EvictFromTail(o, a.capacity).evicted
  {
    ghost var goal := LruModel.EvictFromTail(o, a.capacity);
    r, evicted, l' := a, [], l;
    ghost var rest := o;
    LinkedFacts(r, l', rest);
    while |r.index| > r.capacity
      invariant WellFormed(r) && r.capacity == a.capacity
      invariant Linked(r, l') && Spells(r, l', rest) && |r.index| == |rest|
      invariant LruModel.EvictFromTail(rest, a.capacity).kept == goal.kept
      invariant evicted + LruModel.EvictFromTail(rest, a.capacity).evicted == goal.evicted
      decreases |l'|
    {
      EmptyIffNoHead(r, l', rest);
      assert r.tail != Nil;  // the source asserts the tail is not None here
      ForgetTail(r, l', rest);
      var victim := r.nodes[r.tail].key;
      LruModel.EvictLast(rest, a.capacity);
      LruModel.AppendAssoc(evicted, [victim], LruModel.EvictFromTail(rest[..|rest| - 1], a.capacity).evicted);
      r := Forget(r, r.tail);
      evicted := evicted + [victim];
      l' := l'[..|l'| - 1];
      rest := rest[..|rest| - 1];
    }
  }

  /** `create`: promote a present key, or insert a new one at the head and
      evict from the tail while the index is larger than the capacity. */
  method Create(a: Arena, key: Key, ghost l: seq<int>, ghost s: LruModel.Lru)
    returns (r: Arena, evicted: seq<Key>, ghost l': seq<int>)
    requires Represents(a, l, s)
    ensures Represents(r, l', LruModel.Create(s, key).lru)
    ensures evicted == LruModel.Create(s, key).evicted
  {
    IndexedKey(a, l, s.order, key);
    if key in a.index {
      var n := a.index[key];
      r := Detach(a, n);
      r := AttachFront(r, n);
      l' := MoveToFrontRefines(a, l, s, key);
      evicted := [];
      return;
    }
    InsertFrontLinked(a, l, s, key);
    var grown := InsertFront(a, key);
    r, evicted, l' := EvictOverflow(grown, [|a.nodes|] + l, [key] + s.order);
  }

  /** `delete`: drop a present key, keeping the others in order. */
  method Delete(a: Arena, key: Key, ghost l: seq<int>, ghost s: LruModel.Lru) returns (r: Arena, ghost l': seq<int>)
    requires Represents(a, l, s)
    ensures Represents(r, l', LruModel.Delete(s, key))
    ensures r.index == a.index - {key}
    ensures key !in a.index ==> r == a
  {
    IndexedKey(a, l, s.order, key);
    if key !in a.index {
      return a, l;
    }
    var n := a.index[key];
    ghost var i :| 0 <= i < |l| && l[i] == n;
    assert s.order[i] == key;
    r := Forget(a, n);
    ForgetLinked(a, l, s.order, i);
    LruModel.DeleteAt(s, i);
    l' := l[..i] + l[i + 1..];
  }

  /** `keys_mru_to_lru`: follow `next` from the head until `None`. */
  method KeysMruToLru(a: Arena, ghost l: seq<int>, ghost s: LruModel.Lru) returns (out: seq<Key>)
    requires Represents(a, l, s)
    ensures out == s.order
    ensures LruModel.Distinct(out) && |out| == |a.index|
  {
    out := [];
    var cur := a.head;
    ghost var i := 0;
    while cur != Nil
      invariant 0 <= i <= |l|
      invariant cur == (if i == |l| then Nil else l[i])
      invariant out == s.order[..i]
      decreases |l| - i
    {
      assert a.nodes[l[i]].key == s.order[i];
      out := out + [a.nodes[cur].key];
      cur := a.nodes[cur].next;
      i := i + 1;
    }
    LinkedFacts(a, l, s.order);
  }
}
