# Segmented content cache

This is a Dafny model of a small multi-level content cache, written in Python as `code.py`. It has three parts:

- **Content items** carry an id, a size, a header and a payload. The header's character codes, summed and reduced modulo 3, choose one of three segments.
- **A segment** (`CacheList`) is a doubly linked list of nodes with a fixed capacity. The head is the most recently used item and the tail the least recently used. It tracks the remaining space and the number of items. It supports:
  - `put`, which rejects an oversized item or a resident id, evicts under an MRU or LRU policy until the new item fits, then links it at the head;
  - `__contains__`, which finds an id and promotes its node to the head;
  - `update`, which replaces an item in place after two capacity tests and promotes it;
  - `mruEvict`, `lruEvict` and `clear`.
- **The cache** (`Cache`) holds three segments of equal capacity. `insert`, `__getitem__` and `__setitem__` act on the segment that the item's header selects. `clear` empties all three segments.

The files:

- `content_items.dfy`: the item datatype, the classification as a recursive function, and the summing loop of `__hash__` proved against it.
- `eviction_model.dfy`: the value-level behaviour of one segment. It works on the sequence of items from head to tail and defines:
  - `PutSpec` and `UpdateSpec`;
  - the two eviction functions;
  - promotion (`MoveToFront`);
  - the per-segment invariant kept by the cache, which requires unique ids and every item classifying to its segment.

  It also holds the lemmas that state what `put` and `update` promise.
- `cache_list.dfy`: the linked list as classes `Node` and `CacheList`.
  - Ghost sequences `nodes` and `items` list the nodes and their values from head to tail.
  - `Valid()` ties them to both directions of the links, to `head`/`tail`, and to `numItems` and `remainingSpace`.
  - Every method is proved to transform `items` exactly as the value-level definitions say.
- `segmented_cache.dfy`: the `Cache` class. It holds three lists with pairwise disjoint footprints. The operations act on the selected segment only and leave the other two unchanged.
- `scenarios.dfy`: the documented sessions of `code.py`, replayed step by step on the value-level definitions. These are the list session (lines 55-89) and the end of the cache session (lines 426-446).

Status strings are replaced by the `Outcome` datatype:

| string in `code.py` | `Outcome` |
|---|---|
| "INSERTED: …" | `Inserted` |
| "Insertion not allowed" | `TooLarge` |
| "Content … already in cache" | `Duplicate` |
| "UPDATED: …" | `Updated` |
| "Cache miss!" | `Miss` |
| a found item | `Hit` |
| the crash of `mruEvict` on a one-item list, described below | `Fault` |

## Model

| member | source | states |
|---|---|---|
| ContentItems.Equals | code.py:39-42 | comparing all four fields is exactly equality of items |
| ContentItems.OrdSum | code.py:44-48 | defines the sum of a header's character codes, the total that `__hash__` accumulates; ClassifyHeaderIsOrdSumMod3 and Classify state its relation to the segment |
| ContentItems.ClassifyHeader | code.py:44-48 | defines the class of a header, reducing modulo 3 character by character, and always lies in 0..2; ClassifyHeaderIsOrdSumMod3 proves it equals the full sum modulo 3 |
| ContentItems.Classify | code.py:44-48 | the segment of an item is the sum of its header's character codes modulo 3, and lies in 0..2 |
| ContentItems.ClassifyHeaderIsOrdSumMod3 | code.py:44-48 | reducing modulo 3 at every step gives the same class as reducing the full sum |
| ContentItems.ClassifyDependsOnHeaderOnly | code.py:44-48 | two items with the same header fall in the same segment, whatever their id, size and payload |
| ContentItems.Hash | code.py:44-48 | the accumulator loop over the header returns exactly the item's segment |
| ContentItems.ClassifyExamples | code.py:14-26 | the four documented items hash to 0, 1, 2 and 1 |
| EvictionModel.HasCid | code.py:160-168 | defines membership by id, the answer of the scan in `__contains__`; FirstIndex states that the scan ends inside the list exactly when it holds, and Contains returns it |
| EvictionModel.FirstIndex | code.py:162-168 | the scan from the head stops at the first item with the id; no earlier item has it; it stops inside the list exactly when the id is resident |
| EvictionModel.MoveToFront | code.py:194-209 | promotion puts item i at the head, shifts the items before it back by one and leaves those after it in place |
| EvictionModel.MoveToFrontPermutes | code.py:160-168 | promotion keeps the multiset of items and the space used, and keeps the other items in their relative order |
| EvictionModel.LruSurvivors | code.py:139-143 | defines the items left by the eviction loop of `put` under LRU, which repeats `lruEvict` (code.py:230-250) until the item fits; LruSurvivorsSpec states its properties |
| EvictionModel.MruSurvivors | code.py:139-143 | defines the items left by the eviction loop of `put` under MRU, which repeats `mruEvict` (code.py:217-228) until the item fits, stopping at one item; MruSurvivorsSpec states its properties |
| EvictionModel.PutSpec | code.py:132-158 | defines `put` on the item sequence: rejection of an oversized item, rejection and promotion of a resident id, eviction under the policy, insertion at the head. Its outcome is one of TooLarge, Duplicate, Inserted with the new item at the head, or Fault. PutRejections, PutLruEvictsTail, PutMruEvictsHead, PutKeepsCapacity and PutKeepsSegment state its properties |
| EvictionModel.UpdateSpec | code.py:172-211 | defines `update` on the item sequence: the first item with the id is replaced and moved to the head when both capacity tests pass, otherwise a miss. UpdateSucceedsIff states when it succeeds and that a miss changes nothing; UpdateAccounting states that a success keeps the length and charges the size difference |
| EvictionModel.LruSurvivorsSpec | code.py:230-250 | LRU eviction keeps a prefix of the list; it makes room whenever the item fits in the capacity; it removes no item that was not needed |
| EvictionModel.MruSurvivorsSpec | code.py:217-228 | MRU eviction keeps a suffix of the list; it removes no item that was not needed; it fails to make room only with one item left |
| EvictionModel.PutRejections | code.py:134-137 | put rejects an oversized item exactly when it exceeds the capacity, leaving the items as they were; it rejects a duplicate exactly when the id is resident; a duplicate keeps the same multiset and accounting, with the resident entry at the head |
| EvictionModel.PutLruEvictsTail | code.py:139-156 | under LRU a new admissible item is inserted at the head in front of the longest prefix of the old list that leaves room for it, within capacity |
| EvictionModel.PutMruEvictsHead | code.py:139-156 | under MRU a new admissible item is inserted in front of the longest suffix that leaves room; otherwise the operation faults with one item left that does not leave room |
| EvictionModel.PutKeepsCapacity | code.py:132-156 | put never takes a segment over its capacity |
| EvictionModel.UpdateSucceedsIff | code.py:172-211 | update succeeds exactly when the id is resident and the new item fits in the space left plus the old item's size; otherwise it is a miss with no change |
| EvictionModel.UpdateAccounting | code.py:176-211 | a successful update keeps the number of items, charges exactly the size difference, stays within capacity, and puts the new item at the head with the others in order |
| EvictionModel.UpdateWithOwnValuePromotes | code.py:165 | update called with an item's own value always passes both capacity tests and only promotes the item |
| EvictionModel.MoveToFrontKeepsSegment | code.py:478-483 | a lookup hit keeps ids unique and every item in its segment |
| EvictionModel.PutKeepsSegment | code.py:475-476 | inserting through put keeps ids unique and every item in its segment |
| EvictionModel.UpdateKeepsSegment | code.py:485-504 | replacing an item with one of the same id and class keeps ids unique and every item in its segment |
| CacheLists.Node.constructor | code.py:2-5 | a new node holds its item and has no neighbours |
| CacheLists.CacheList.constructor | code.py:110-116 | a new list is empty, with all its capacity free |
| CacheLists.CacheList.Len | code.py:129-130 | the length is the number of resident items |
| CacheLists.CacheList.WalkBackward | code.py:91-100 | following `previous` k times from the tail reaches the k-th node from the end, or null past the head |
| CacheLists.CacheList.WalkForward | code.py:91-100 | following `next` k times from the head reaches the k-th node, or null past the tail |
| CacheLists.CacheList.Traversals | code.py:91-100 | head and tail are null exactly when the list is empty; the head has no predecessor and the tail no successor; the backward walk from the tail reaches the head in numItems - 1 steps, mirrors the forward walk, and then falls off |
| CacheLists.CacheList.Clear | code.py:254-259 | clear empties the list and frees all its capacity |
| CacheLists.CacheList.LruEvict | code.py:230-250 | nothing happens on an empty list; otherwise exactly the tail item goes, its size is freed, and one item fewer remains |
| CacheLists.CacheList.MruEvict | code.py:217-228 | nothing happens on an empty list; with two or more items exactly the head item goes and its size is freed; a one-item list reports a fault and is left unchanged |
| CacheLists.CacheList.Contains | code.py:160-168 | the result is whether the id is resident; a hit moves the first such item to the head and makes it the head's value, with the accounting unchanged; a miss changes nothing |
| CacheLists.CacheList.Put | code.py:132-158 | the outcome and the new items are exactly those of the value-level put |
| CacheLists.CacheList.InsertAtHead | code.py:146-156 | a new node holding the item becomes the head and its size is charged |
| CacheLists.CacheList.Attach | code.py:147-156 | an unlinked node joins the list as its head, and its size is charged |
| CacheLists.CacheList.LinkFirst | code.py:147-152 | the links of the list with the new node in front are consistent |
| CacheLists.CacheList.Update | code.py:172-211 | outcome and items are exactly those of the value-level update; on success the node moves to the head and the size difference is charged; otherwise nothing changes |
| CacheLists.CacheList.Store | code.py:179-180 | the item at position i is replaced and the size difference charged |
| CacheLists.CacheList.StoreAndPromote | code.py:179-209 | the replaced item ends at the head with the other items in order |
| CacheLists.CacheList.Promote | code.py:183-209 | the node at position i > 0 moves to the head; the accounting is unchanged |
| CacheLists.CacheList.Relink | code.py:184-209 | the links after promotion are consistent with the promoted order |
| CacheLists.CacheList.Unlink | code.py:184-199 | joining a node's neighbours leaves a consistent chain without it, moving the tail back if it was the tail |
| CacheLists.CacheList.PushFront | code.py:206-209 | a node outside the chain becomes its head, and the tail is kept |
| SegmentedCache.Cache.constructor | code.py:459-461 | a new cache has three empty, disjoint segments of the given capacity |
| SegmentedCache.Cache.Clear | code.py:469-472 | all three segments end empty, with full capacity free |
| SegmentedCache.Cache.ClearAt | code.py:470-471 | clearing one segment empties it and leaves the other two unchanged |
| SegmentedCache.Cache.Insert | code.py:475-476 | insert acts as put on the item's segment, and leaves the other two segments unchanged |
| SegmentedCache.Cache.InsertAt | code.py:475-476 | put on segment k keeps the cache invariant and leaves the other segments unchanged |
| SegmentedCache.Cache.Lookup | code.py:478-483 | a hit happens exactly when the id is resident in the item's segment; it returns the resident item and promotes it to the head; a miss changes nothing; the other segments are unchanged |
| SegmentedCache.Cache.LookupAt | code.py:478-483 | the lookup in segment k, with the same outcome, and the other segments unchanged |
| SegmentedCache.FindInSegment | code.py:480-483 | a lookup on one segment returns the resident item with the id and leaves it at the head, keeping the segment invariant |
| SegmentedCache.Cache.Assign | code.py:485-504 | the item's segment changes as the value-level update with the item's own id says: the resident item is replaced and promoted when it fits, otherwise nothing changes; the other segments are unchanged |
| SegmentedCache.Cache.AssignAt | code.py:485-504 | the assignment in segment k, with the same result, and the other segments unchanged |
| SegmentedCache.ReplaceInSegment | code.py:490-504 | scanning the whole segment for the item's id and replacing on a match gives exactly the value-level update, and keeps ids unique |
| SegmentedCache.ReplaceAt | code.py:492-501 | at the first match, the capacity tests decide between replacing and promoting, and no change |
| SegmentedCache.StoreAndRefresh | code.py:496-501 | storing the item and then calling update with it replaces the item and moves it to the head |
| Scenarios.FirstFourInserts | code.py:66-73 | the first four documented inserts succeed without eviction |
| Scenarios.FifthInsert | code.py:74-75 | the 180-unit LRU insert evicts items 1000 and 1004 from the tail |
| Scenarios.SixthInsert | code.py:76-77 | the MRU insert into a full list evicts item 1005 from the head |
| Scenarios.LookupThenUpdate | code.py:78-82 | the membership test promotes 1006; the update replaces 1008 by 1034 and promotes it |
| Scenarios.CacheListSession | code.py:55-89 | the documented session ends with 1034, 1006, 1000 from the head and 170 units free |
| Scenarios.SegmentTwoSession | code.py:426-446 | in segment 2, a duplicate insert of 2002 is refused; assigning the 103-unit item 2000 leaves 2000, 2002, 2001 with 15 units free |

## Left out

- String rendering (`__str__`/`__repr__` of every class) and the literal status messages are not modelled. Outcomes are the `Outcome` datatype, and a list's contents are the ghost `items` sequence.
- An unrecognised policy string makes the eviction loop in `put` run forever. The policy here is the two-value datatype `MRU | LRU`, so that input cannot be expressed.
- CacheLists.CacheList.MruEvict: on a one-item list the source decreases `numItems` and adds the head's size to `remainingSpace`, then fails on a missing successor. The model reports `ok == false` and leaves the list as it was. `put` under MRU then returns `Fault` with the evictions done so far. The half-updated counters at the moment of the crash are not modelled.
- The `isinstance` test in `__eq__` is not modelled: both arguments are items by typing.
- SegmentedCache.Cache.Assign: the `cid` argument of `__setitem__` is ignored, as in the source; the match is on the new item's id. `__setitem__` returns nothing, and neither does the model. After a promotion, the scan goes on from the promoted node's new successor. Unique ids make that continuation inert, and the model proves this rather than skipping it.
- SegmentedCache.Cache.Lookup: `__getitem__` returns the item at the head, a content item. The documentation reads its `.value` as if it were a node. The model returns the item.
- Routing first computes the segment with `Hash` and then calls the `…At` method for that segment. This is one call in the source, split in two here.
- Uniqueness of ids is kept by the cache (through `insert`'s duplicate test and `__setitem__` keeping the id), not by a list alone. A direct `update` with a different id can create a duplicate in a list, and the list invariant allows that.
- `Cache.size` is the constant 3, and the three segments are fixed fields `l1`, `l2`, `l3`, with `hierarchy` the sequence of the three.
- Sizes and capacities are natural numbers. Python integers are unbounded, so there is no wrap-around to model. code.py never rejects a negative item size or a negative capacity. The `nat` types exclude both, so the model does not cover them. Negative sizes are also the only case in which the second capacity test of `update` (code.py:178) can decide anything. With natural sizes UpdateSucceedsIff proves that test never decides.
- The cache session's first part (lines 264-404 of `code.py`) is replayed only through the general lemmas, not as a literal scenario.
