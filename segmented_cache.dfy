/** The segmented cache: three bounded lists of the same capacity, one per header class. */
module SegmentedCache {
  import opened ContentItems
  import opened EvictionModel
  import opened CacheLists

  /** Three cache segments, L1 to L3; an item lives in the segment its header classifies to. */
  class Cache {
    const l1: CacheList
    const l2: CacheList
    const l3: CacheList
    /** The segments in order, indexed by the class of an item's header. */
    const hierarchy: seq<CacheList> := [l1, l2, l3]
    /** The number of segments. */
    const size: nat := 3
    /** The capacity every segment was built with. */
    ghost const capacity: nat

    /** Everything the cache owns: the three lists and their nodes. */
    ghost function Repr(): set<object>
      reads this, l1, l2, l3
    {
      l1.Repr + l2.Repr + l3.Repr
    }

    /** Segment k is a well-formed list of the cache's capacity whose items have distinct ids
        and all classify to k. */
    ghost predicate SegmentValid(k: nat)
      requires k < size
      reads this, hierarchy[k], hierarchy[k].Repr
    {
      && hierarchy[k].Valid()
      && hierarchy[k].maxSize == capacity
      && SegmentInvariant(hierarchy[k].items, k)
    }

    /** All three segments are valid and none shares an object with another. */
    ghost predicate Valid()
      reads this, l1, l2, l3, l1.Repr, l2.Repr, l3.Repr
    {
      && SegmentValid(0) && SegmentValid(1) && SegmentValid(2)
      && l1.Repr !! l2.Repr && l1.Repr !! l3.Repr && l2.Repr !! l3.Repr
    }

    /** Three empty segments, each with room for lstCapacity units. */
    constructor (lstCapacity: nat)
      ensures Valid() && fresh(Repr())
      ensures capacity == lstCapacity
      ensures l1.items == [] && l2.items == [] && l3.items == []
      ensures l1.remainingSpace == l2.remainingSpace == l3.remainingSpace == lstCapacity
    {
      l1 := new CacheList(lstCapacity);
      l2 := new CacheList(lstCapacity);
      l3 := new CacheList(lstCapacity);
      capacity := lstCapacity;
    }

    /** Empty every segment, one after the other. */
    method Clear()
      requires Valid()
      modifies Repr()
      ensures Valid() && Repr() == old(Repr())
      ensures l1.items == [] && l2.items == [] && l3.items == []
      ensures l1.remainingSpace == l2.remainingSpace == l3.remainingSpace == capacity
    {
      for i := 0 to size
        invariant Valid() && Repr() == old(Repr())
        invariant 0 < i ==> l1.items == [] && l1.remainingSpace == capacity
        invariant 1 < i ==> l2.items == [] && l2.remainingSpace == capacity
        invariant 2 < i ==> l3.items == [] && l3.remainingSpace == capacity
      {
        ClearAt(i);
      }
    }

    /** clear on segment k; the other two are left alone. */
    method ClearAt(k: nat)
      requires Valid() && k < size
      modifies Repr()
      ensures Valid() && Repr() == old(Repr())
      ensures hierarchy[k].items == [] && hierarchy[k].remainingSpace == capacity
      ensures k != 0 ==> unchanged(l1)
      ensures k != 1 ==> unchanged(l2)
      ensures k != 2 ==> unchanged(l3)
    {
      hierarchy[k].Clear();
    }

    /** Insert content under the given policy into the segment its header selects. */
    method Insert(content: ContentItem, policy: Policy) returns (r: Outcome)
      requires Valid()
      modifies Repr()
      ensures Valid() && fresh(Repr() - old(Repr()))
      ensures Transition(r, hierarchy[Classify(content)].items) ==
        PutSpec(old(hierarchy[Classify(content)].items), capacity, content, policy)
      ensures Classify(content) != 0 ==> unchanged(l1)
      ensures Classify(content) != 1 ==> unchanged(l2)
      ensures Classify(content) != 2 ==> unchanged(l3)
    {
      var k := Hash(content);
      r := InsertAt(k, content, policy);
    }

    /** put on segment k, which is the segment of content; the other two are left alone. */
    method InsertAt(k: nat, content: ContentItem, policy: Policy) returns (r: Outcome)
      requires Valid() && k == Classify(content)
      modifies Repr()
      ensures Valid() && fresh(Repr() - old(Repr()))
      ensures Transition(r, hierarchy[k].items) == PutSpec(old(hierarchy[k].items), capacity, content, policy)
      ensures k != 0 ==> unchanged(l1)
      ensures k != 1 ==> unchanged(l2)
      ensures k != 2 ==> unchanged(l3)
    {
      PutKeepsSegment(hierarchy[k].items, capacity, content, policy, k);
      r := hierarchy[k].Put(content, policy);
    }

    /** Look content up by its id in the segment its header selects. */
    method Lookup(content: ContentItem) returns (r: Outcome)
      requires Valid()
      modifies Repr()
      ensures Valid() && Repr() == old(Repr())
      ensures var s := old(hierarchy[Classify(content)].items);
        && (r.Hit? <==> HasCid(s, content.cid))
        && (r.Hit? ==> r == Hit(s[FirstIndex(s, content.cid)])
                       && hierarchy[Classify(content)].items == MoveToFront(s, FirstIndex(s, content.cid)))
        && (!r.Hit? ==> r == Miss && hierarchy[Classify(content)].items == s)
      ensures Classify(content) != 0 ==> unchanged(l1)
      ensures Classify(content) != 1 ==> unchanged(l2)
      ensures Classify(content) != 2 ==> unchanged(l3)
    {
      var k := Hash(content);
      r := LookupAt(k, content);
    }

    /** The lookup in segment k: a hit promotes the item found to the head of the segment
        and returns it; a miss changes no item. */
    method LookupAt(k: nat, content: ContentItem) returns (r: Outcome)
      requires Valid() && k == Classify(content)
      modifies Repr()
      ensures Valid() && Repr() == old(Repr())
      ensures var s := old(hierarchy[k].items);
        && (r.Hit? <==> HasCid(s, content.cid))
        && (r.Hit? ==> r == Hit(s[FirstIndex(s, content.cid)])
                       && hierarchy[k].items == MoveToFront(s, FirstIndex(s, content.cid)))
        && (!r.Hit? ==> r == Miss && hierarchy[k].items == s)
      ensures k != 0 ==> unchanged(l1)
      ensures k != 1 ==> unchanged(l2)
      ensures k != 2 ==> unchanged(l3)
    {
      var cachelist := hierarchy[k];
      r := FindInSegment(cachelist, content.cid, k);
    }

    /** Replace the resident item with content's id, in the segment content's header
        selects, by content when it fits, and promote it; the cid argument is not used. */
    method Assign(cid: int, content: ContentItem)
      requires Valid()
      modifies Repr()
      ensures Valid() && Repr() == old(Repr())
      ensures hierarchy[Classify(content)].items ==
        UpdateSpec(old(hierarchy[Classify(content)].items), capacity, content.cid, content).items
      ensures Classify(content) != 0 ==> unchanged(l1)
      ensures Classify(content) != 1 ==> unchanged(l2)
      ensures Classify(content) != 2 ==> unchanged(l3)
    {
      var k := Hash(content);
      AssignAt(k, content);
    }

    /** The assignment in segment k: scan from the head for content's id; on a match that
        passes update's two capacity tests, store content in the node and charge the size
        difference, then call update with the stored item, which promotes it. The scan goes on
        to the end of the list, and ids being unique, it finds nothing further. */
    method AssignAt(k: nat, content: ContentItem)
      requires Valid() && k == Classify(content)
      modifies Repr()
      ensures Valid() && Repr() == old(Repr())
      ensures hierarchy[k].items == UpdateSpec(old(hierarchy[k].items), capacity, content.cid, content).items
      ensures k != 0 ==> unchanged(l1)
      ensures k != 1 ==> unchanged(l2)
      ensures k != 2 ==> unchanged(l3)
    {
      var cachelist := hierarchy[k];
      ReplaceInSegment(cachelist, content, k);
    }
  }

  /** The scan behind Cache.AssignAt, on the segment alone. Ids of the segment are unique, so
      the scan, which goes on after a match, meets content's id at most once. */
  method ReplaceInSegment(cachelist: CacheList, content: ContentItem, ghost k: nat)
    requires cachelist.Valid() && SegmentInvariant(cachelist.items, k) && Classify(content) == k
    modifies cachelist.Repr
    ensures cachelist.Valid() && cachelist.Repr == old(cachelist.Repr)
    ensures cachelist.items == UpdateSpec(old(cachelist.items), cachelist.maxSize, content.cid, content).items
    ensures SegmentInvariant(cachelist.items, k)
  {
    ghost var s := cachelist.items;
    ghost var target := UpdateSpec(s, cachelist.maxSize, content.cid, content).items;
    UpdateKeepsSegment(s, cachelist.maxSize, content, k);
    var head := cachelist.head;
    ghost var j := 0;
    ghost var matched := 0;
    ghost var done := false;
    while head != null
      modifies cachelist.Repr
      invariant cachelist.Valid() && cachelist.Repr == old(cachelist.Repr)
      invariant 0 <= j <= |cachelist.nodes|
      invariant head == if j < |cachelist.nodes| then cachelist.nodes[j] else null
      invariant !done ==> cachelist.items == s && forall q :: 0 <= q < j ==> s[q].cid != content.cid
      invariant done ==> cachelist.items == target && matched < j && target[matched].cid == content.cid
      decreases if done then 0 else 1, |cachelist.nodes| - j
    {
      if head.value.cid == content.cid {
        assert !done;
        assert FirstIndex(s, content.cid) == j;
        var moved := ReplaceAt(cachelist, head, j, content);
        if moved {
          j := 0;
        }
        matched := j;
        done := true;
      }
      head := head.next;
      j := j + 1;
    }
    if !done {
      assert !HasCid(s, content.cid);
    }
  }

  /** The lookup behind Cache.LookupAt, on the segment alone: a hit leaves the item found at
      the head, which is returned. */
  method FindInSegment(cachelist: CacheList, cid: int, ghost k: nat) returns (r: Outcome)
    requires cachelist.Valid() && SegmentInvariant(cachelist.items, k)
    modifies cachelist.Repr
    ensures cachelist.Valid() && cachelist.Repr == old(cachelist.Repr)
    ensures var s := old(cachelist.items);
      && (r.Hit? <==> HasCid(s, cid))
      && (r.Hit? ==> r == Hit(s[FirstIndex(s, cid)]) && cachelist.items == MoveToFront(s, FirstIndex(s, cid)))
      && (!r.Hit? ==> r == Miss && cachelist.items == s)
    ensures SegmentInvariant(cachelist.items, k)
  {
    var found := cachelist.Contains(cid);
    if found {
      MoveToFrontKeepsSegment(old(cachelist.items), FirstIndex(old(cachelist.items), cid), k);
      r := Hit(cachelist.head.value);
    } else {
      r := Miss;
    }
  }

  /** The match step of the scan: the node at position j holds the first item with content's
      id. When content passes update's two capacity tests it replaces that item, which then
      moves to the head; otherwise nothing changes. */
  method ReplaceAt(cachelist: CacheList, head: Node, ghost j: nat, content: ContentItem) returns (moved: bool)
    requires cachelist.Valid() && j < |cachelist.nodes| && head == cachelist.nodes[j]
    requires FirstIndex(cachelist.items, content.cid) == j
    modifies cachelist.Repr
    ensures cachelist.Valid() && cachelist.Repr == old(cachelist.Repr)
    ensures cachelist.items == UpdateSpec(old(cachelist.items), cachelist.maxSize, content.cid, content).items
    ensures moved ==> head == cachelist.nodes[0] && cachelist.items[0] == content
    ensures !moved ==> cachelist.nodes == old(cachelist.nodes) && cachelist.items == old(cachelist.items)
  {
    moved := false;
    var previousSize := head.value.size;
    if content.size <= cachelist.remainingSpace + previousSize {
      if cachelist.maxSize >= cachelist.remainingSpace + previousSize - content.size {
        StoreAndRefresh(cachelist, head, j, content);
        moved := true;
      }
    }
  }

  /** The two steps of a replacement that passed both capacity tests: store content in the
      node at position j, charging the size difference, then call update on the segment with
      the stored item, which promotes the node to the head. */
  method StoreAndRefresh(cachelist: CacheList, head: Node, ghost j: nat, content: ContentItem)
    requires cachelist.Valid() && j < |cachelist.nodes| && head == cachelist.nodes[j]
    requires FirstIndex(cachelist.items, content.cid) == j
    requires content.size <= cachelist.remainingSpace + cachelist.items[j].size
    modifies cachelist.Repr
    ensures cachelist.Valid() && cachelist.Repr == old(cachelist.Repr)
    ensures cachelist.items == MoveToFront(old(cachelist.items)[j := content], j)
    ensures cachelist.nodes == MoveToFront(old(cachelist.nodes), j)
  {
    cachelist.Store(head, j, content);
    assert FirstIndex(cachelist.items, content.cid) == j;
    UpdateWithOwnValuePromotes(cachelist.items, cachelist.maxSize, j);
    var _ := cachelist.Update(head.value.cid, head.value);
  }
}
