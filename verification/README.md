# LRU recency tracker

A Dafny model of `LRU` in `src/lru.py`. The class tracks which keys of a
key-value store are "hot". Its capacity is a positive number of keys. It
orders the keys from most recently used (the head) to least recently used
(the tail). `touch` promotes a key. `create` inserts or promotes a key and
evicts from the tail while there are more keys than the capacity. `delete`
drops a key. `keys_mru_to_lru` lists the keys from head to tail.

The model has three modules:

- `LruModel` (`lru_model.dfy`) is the abstract tracker: a capacity and a
  duplicate-free sequence of keys, head first. Every operation is a pure
  function on it. The sequence is the specification of the linked list.
- `LruArena` (`lru_arena.dfy`) is the linked list of the source. Nodes
  live in a sequence of slots. Slot numbers replace the `prev`/`next`
  references, and `Nil` (-1) replaces `None`. A map from key to slot is the
  source's `_map`. Each public operation is proved against the abstract
  tracker: `New`, `Touch`, `Create` and `Delete` against the `LruModel`
  functions of the same names, the eviction loop `EvictOverflow` against
  `LruModel.EvictFromTail`, and `Len`, `Contains` and `KeysMruToLru`
  directly against the abstract order. `Represents(a, l, s)` ties them
  together. It
  says that `l` is the walk from head to tail along the links of `a`, that
  the nodes on `l` hold exactly the keys of `s`, in order, and that the
  index maps each of those keys to its slot and nothing else.
- `LruDemo` (`lru_demo.dfy`) states the capacity-2 walk-through from
  `scripts/main_lru_mem.py` on the linked implementation and proves its
  outcome.

Keys are Python `bytes`, modelled as sequences of bytes. Python mutates
the tracker in place; here every operation returns the new state.
`_Node(key=key)` allocates a new node; here a new key takes the next unused
slot, and a slot whose key was deleted or evicted is never linked again.
A touched key keeps its slot: it is detached and attached again at the
front.

## Model

| member | source | states |
|---|---|---|
| LruModel.New | src/lru.py:19-25 | Construction succeeds exactly when the capacity is positive, and the error names the refused capacity. A new tracker is valid and empty. |
| LruModel.Remove | src/lru.py:97-102 | Removing a key keeps exactly the other keys and changes nothing when the key is absent. It keeps the sequence duplicate-free and, for a present key, shortens it by one. |
| LruModel.RemoveAt | src/lru.py:33-46 | Removing the key at position i of a duplicate-free sequence closes the gap. The keys before and after i stay in order. |
| LruModel.Touch | src/lru.py:58-66 | `touch` keeps the same set of keys and the same size. An absent key is a no-op. A present key becomes the head, and the other keys keep their relative order. |
| LruModel.TouchAt | src/lru.py:58-66 | Touching the key at position i gives that key followed by the keys before i and then the keys after i. |
| LruModel.Create | src/lru.py:68-95 | For a present key, `create` is `touch` and evicts nothing. A new key becomes the head. Below capacity it evicts nothing. At capacity it evicts exactly the old tail. The result never exceeds the capacity, and it tracks no key other than the created one and the ones tracked before. Evicted keys were tracked before and are not tracked after. |
| LruModel.EvictFromTail | src/lru.py:87-95 | The eviction loop keeps the first `capacity` keys. It evicts the rest, last key first. |
| LruModel.Delete | src/lru.py:97-102 | `delete` keeps exactly the keys other than the deleted one. An absent key is a no-op. A present key shrinks the tracker by one. |
| LruModel.DeleteAt | src/lru.py:97-102 | Deleting the key at position i leaves the keys before and after i in their order. |
| LruModel.Idempotent | src/lru.py:58-102 | Touching a key twice is the same as touching it once. Deleting a key twice is the same as deleting it once. |
| LruModel.Run | src/lru.py:58-102 | Any sequence of `touch`, `create` and `delete` calls keeps the tracker valid at its capacity. Every key it then tracks, and every key it evicted, was either tracked at the start or created by one of the calls. |
| LruModel.CreatesFit | src/lru.py:82-85 | Creating up to `capacity` distinct keys on an empty tracker evicts nothing. It leaves the keys in reverse order of creation. |
| LruModel.OverflowEvictsFirst | src/lru.py:87-95 | Creating capacity + 1 distinct keys with no touch between them evicts exactly the first key. The others remain, newest first. |
| LruArena.IndexedKey | src/lru.py:30-31 | A key is in the index exactly when it is on the list. |
| LruArena.LinkedFacts | src/lru.py:27-28 | The keys on the list are distinct. The index has as many entries as the list has nodes. |
| LruArena.EmptyIffNoHead | src/lru.py:87-89 | For any well-linked list, including one over capacity, `head` is `None`, and so is `tail`, exactly when the index is empty. The eviction loop uses it to discharge the assertion that the tail is not `None`. |
| LruArena.Detach | src/lru.py:33-46 | `_detach` keeps every link inside the arena. It leaves every node's key and the index unchanged. |
| LruArena.DetachEffect | src/lru.py:33-46 | `_detach` relinks the predecessor's `next` (or the head) and the successor's `prev` (or the tail). It clears the node's own links and changes no other node. |
| LruArena.DetachUnlinks | src/lru.py:33-46 | Detaching the i-th node of the list leaves a well-linked list of the remaining nodes, in the same order. |
| LruArena.AttachFront | src/lru.py:48-56 | `_attach_front` makes the node the head and keeps every link inside the arena. Keys and index are unchanged. |
| LruArena.AttachFrontEffect | src/lru.py:48-56 | `_attach_front` sets the node's links to `None` and the old head, points the old head back to it, and sets the tail only when there was none. No other node changes. |
| LruArena.AttachFrontLinks | src/lru.py:48-56 | Attaching a node that is not on the list puts it in front of the list, and the whole list stays well linked. |
| LruArena.Forget | src/lru.py:97-102 | Detaching a node and dropping its key from the index keeps every link inside the arena and leaves every node's key unchanged. The index loses exactly that node's key. The eviction loop takes the same step at src/lru.py:91-92. |
| LruArena.Grow | src/lru.py:83-84 | `_Node(key=key)` and `self._map[key] = node`: a new unlinked node holding the key takes the next unused slot, and the index maps the key to it. The existing slots, head and tail are unchanged. |
| LruArena.InsertFront | src/lru.py:83-85 | The new slot for the key is indexed and becomes the head. It also becomes the tail if there was none; otherwise the tail is unchanged. |
| LruArena.ForgetLinked | src/lru.py:97-102 | Detaching the i-th node and dropping its key from the index leaves the list, the index and the keys without that node, the rest in order. |
| LruArena.ForgetTail | src/lru.py:89-93 | The tail is the last node of the list. Forgetting it drops the last key and shrinks the index by one. |
| LruArena.MoveToFrontRefines | src/lru.py:65-66 | Detaching a present key's node and attaching it in front implements `LruModel.Touch`. |
| LruArena.InsertFrontLinked | src/lru.py:83-85 | A new node for an absent key, indexed and attached in front, puts that key ahead of the existing order. |
| LruArena.New | src/lru.py:19-25 | Construction fails exactly for a non-positive capacity. A new tracker has no head, no tail and an empty index, and represents the empty abstract tracker. |
| LruArena.Len | src/lru.py:27-28 | `__len__` is the number of tracked keys, which never exceeds the capacity. |
| LruArena.Contains | src/lru.py:30-31 | `__contains__` holds exactly for the keys in the abstract order. |
| LruArena.Touch | src/lru.py:58-66 | `touch` on the linked list implements `LruModel.Touch`. It keeps the index, and a present key's node becomes the head. An absent key leaves the state unchanged. |
| LruArena.EvictOverflow | src/lru.py:87-95 | The eviction loop leaves the linked list representing the first `capacity` keys. It returns the removed keys, tail first. |
| LruArena.Create | src/lru.py:68-95 | `create` on the linked list implements `LruModel.Create`, both the new order and the evicted keys. |
| LruArena.Delete | src/lru.py:97-102 | `delete` on the linked list implements `LruModel.Delete`. The key leaves the index. An absent key leaves the state unchanged. |
| LruArena.KeysMruToLru | src/lru.py:104-113 | Following `next` from the head yields exactly the abstract order. Each key appears once, and the count is `len`. |
| LruDemo.Scenario | scripts/main_lru_mem.py:12-24 | With capacity 2, creating K1 and K2 gives [K2, K1]. Touching K1 gives [K1, K2]. Creating K3 then evicts [K2] and leaves [K3, K1]. |

## Left out

- The backing-store coordination (the memcached wrapper `Mem` in `src/mem_storage.py`) is not modelled. It reads and writes a network store. `Mem` as written takes no `lru_capacity` and has no `lru` attribute, although `scripts/main_lru_mem.py:6` and `scripts/main_lru_mem_images.py:45` construct it with `lru_capacity=2`. The component that would call `create`/`touch`/`delete` on the tracker next to the store is not in the code, so there is nothing to model for it.
- `src/fs_storage.py`, `src/utils_image.py`, `scripts/main_mem.py` and `scripts/demo_fs.py` are filesystem, image and store I/O with no recency logic. `scripts/main_lru_mem_images.py` repeats the walk-through of `scripts/main_lru_mem.py` with image payloads. It prints the tracker's order after each step and raises `RuntimeError` if K2 survives the third insert. Its tracker part is the one `LruDemo.Scenario` states.
- LruDemo.Scenario: covers the tracker's part of the walk-through only. The script's `read` calls would go through `Mem`, which does not call the tracker, so the scenario applies `touch` where the script reads K1. The final existence checks against memcached are not modelled.
- The construction error follows the code: a `ValueError` with the message "LRU capacity must be > 0", here the error value `CapacityNotPositive(capacity)`.
- In-place mutation and object identity are replaced by returned values and slot numbers. The slot of a deleted or evicted key is left in the arena rather than reclaimed by a garbage collector.
- `if node.prev:`, `if node.next:` and `if self.head:` in the source test a dataclass instance, which is always true. They are modelled as `is not None`.
- Thread safety: the source takes no lock, and the model is sequential.
