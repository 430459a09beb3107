/** The capacity-2 walk-through of scripts/main_lru_mem.py, stated on the
    linked implementation and proved: two keys are created, the older one
    is used again, and a third key pushes out the one that was not.
 */
module LruDemo {
  import LruModel
  import LruArena

  type Key = LruModel.Key

  /** The byte strings `b"K1"`, `b"K2"` and `b"K3"`. */
  const K1: Key := [75, 49]
  const K2: Key := [75, 50]
  const K3: Key := [75, 51]

  /** A tracker of capacity 2 after `create(K1)` and `create(K2)`. */
  method CreateTwo() returns (a: LruArena.Arena, ghost l: seq<int>, ghost s: LruModel.Lru)
    ensures LruArena.Represents(a, l, s)
    ensures s == LruModel.Lru(2, [K2, K1])
    ensures K1 in a.index && K2 in a.index
  {
    var made := LruArena.New(2);
    var none: seq<Key>;
    a, s, l := made.value, LruModel.New(2).value, [];
    a, none, l := LruArena.Create(a, K1, l, s);
    s := LruModel.Create(s, K1).lru;
    assert s.order == [K1];
    a, none, l := LruArena.Create(a, K2, l, s);
    s := LruModel.Create(s, K2).lru;
    LruArena.IndexedKey(a, l, s.order, K1);
    LruArena.IndexedKey(a, l, s.order, K2);
  }

  /** Then `touch(K1)`. */
  method TouchFirst(a: LruArena.Arena, ghost l: seq<int>, ghost s: LruModel.Lru)
    returns (r: LruArena.Arena, ghost l': seq<int>, ghost s': LruModel.Lru)
    requires LruArena.Represents(a, l, s) && s == LruModel.Lru(2, [K2, K1])
    ensures LruArena.Represents(r, l', s')
    ensures s' == LruModel.Lru(2, [K1, K2])
    ensures K1 in a.index && r.index == a.index && r.head == a.index[K1]
  {
    LruArena.IndexedKey(a, l, s.order, K1);
    r, l' := LruArena.Touch(a, K1, l, s);
    LruModel.TouchAt(s, 1);
    s' := LruModel.Touch(s, K1);
  }

  /** Then `create(K3)`, which is over capacity. */
  method CreateThird(a: LruArena.Arena, ghost l: seq<int>, ghost s: LruModel.Lru)
    returns (r: LruArena.Arena, evicted: seq<Key>, ghost l': seq<int>, ghost s': LruModel.Lru)
    requires LruArena.Represents(a, l, s) && s == LruModel.Lru(2, [K1, K2])
    ensures LruArena.Represents(r, l', s')
    ensures s' == LruModel.Lru(2, [K3, K1]) && evicted == [K2]
  {
    r, evicted, l' := LruArena.Create(a, K3, l, s);
    s' := LruModel.Create(s, K3).lru;
  }

  /** Create K1 and K2, touch K1, then create K3 on a tracker of capacity 2,
      reading the order after each stage. */
  method Scenario() returns (afterTwo: seq<Key>, afterTouch: seq<Key>, evicted: seq<Key>, afterThird: seq<Key>)
    ensures afterTwo == [K2, K1]
    ensures afterTouch == [K1, K2]
    ensures evicted == [K2]
    ensures afterThird == [K3, K1]
  {
    var a, l, s := CreateTwo();
    afterTwo := LruArena.KeysMruToLru(a, l, s);
    a, l, s := TouchFirst(a, l, s);
    afterTouch := LruArena.KeysMruToLru(a, l, s);
    a, evicted, l, s := CreateThird(a, l, s);
    afterThird := LruArena.KeysMruToLru(a, l, s);
  }
}
