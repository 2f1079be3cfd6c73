/** Value-level semantics of one cache segment: the list of resident items from most to least
    recently used, and what each list operation does to it. The linked implementation in
    module CacheLists is proved to follow these definitions. */
module EvictionModel {
  import opened ContentItems

  /** The eviction policy chosen per insertion. */
  datatype Policy = MRU | LRU

  /** The result of a cache operation, in place of the status strings of code.py. */
  datatype Outcome =
    | Inserted(item: ContentItem)
    | TooLarge
    | Duplicate(cid: int)
    | Fault
    | Updated(item: ContentItem)
    | Hit(item: ContentItem)
    | Miss

  /** What an operation returns together with the resulting items, head first. */
  datatype Transition = Transition(outcome: Outcome, items: seq<ContentItem>)

  // ---------------------------------------------------------------------------
  // Accounting

  /** Capacity units used by a sequence of items. */
  function Sum(s: seq<ContentItem>): nat
  {
    if s == [] then 0 else s[0].size + Sum(s[1..])
  }

  lemma {:induction false} SumConcat(a: seq<ContentItem>, b: seq<ContentItem>)
    ensures Sum(a + b) == Sum(a) + Sum(b)
  {
    if a == [] {
      assert a + b == b;
    } else {
      assert (a + b)[1..] == a[1..] + b;
      SumConcat(a[1..], b);
    }
  }

  /** Removing the last item frees exactly its size. */
  lemma {:induction false} SumDropLast(s: seq<ContentItem>)
    requires s != []
    ensures Sum(s[..|s| - 1]) + s[|s| - 1].size == Sum(s)
  {
    assert s == s[..|s| - 1] + [s[|s| - 1]];
    SumConcat(s[..|s| - 1], [s[|s| - 1]]);
  }

  /** Replacing one item changes the total by the difference of the two sizes. */
  lemma {:induction false} SumReplace(s: seq<ContentItem>, i: nat, c: ContentItem)
    requires i < |s|
    ensures Sum(s[i := c]) == Sum(s) - s[i].size + c.size
  {
    assert s == s[..i] + [s[i]] + s[i + 1..];
    assert s[i := c] == s[..i] + [c] + s[i + 1..];
    SumConcat(s[..i] + [s[i]], s[i + 1..]);
    SumConcat(s[..i], [s[i]]);
    SumConcat(s[..i] + [c], s[i + 1..]);
    SumConcat(s[..i], [c]);
  }

  // ---------------------------------------------------------------------------
  // Search and promotion

  predicate HasCid(s: seq<ContentItem>, cid: int)
  {
    exists i :: 0 <= i < |s| && s[i].cid == cid
  }

  /** Position of the first item (from the head) whose id is cid, or |s| when there is none. */
  function FirstIndex(s: seq<ContentItem>, cid: int): (i: nat)
    ensures i <= |s|
    ensures i < |s| ==> s[i].cid == cid
    ensures forall j :: 0 <= j < i ==> s[j].cid != cid
    ensures i < |s| <==> HasCid(s, cid)
  {
    if s == [] then 0
    else if s[0].cid == cid then 0
    else 1 + FirstIndex(s[1..], cid)
  }

  /** The sequence with the element at position i moved to the front. */
  function MoveToFront<T>(s: seq<T>, i: nat): (t: seq<T>)
    requires i < |s|
    ensures |t| == |s| && t[0] == s[i]
    ensures forall q :: 1 <= q <= i ==> t[q] == s[q - 1]
    ensures forall q :: i < q < |s| ==> t[q] == s[q]
  {
    [s[i]] + s[..i] + s[i + 1..]
  }

  lemma {:induction false} SumCons(x: ContentItem, r: seq<ContentItem>)
    ensures Sum([x] + r) == x.size + Sum(r)
  {
  }

  /** The total of a sequence split around one item. */
  lemma {:induction false} SumAround(front: seq<ContentItem>, x: ContentItem, back: seq<ContentItem>)
    ensures Sum(front + [x] + back) == Sum(front) + x.size + Sum(back)
    ensures Sum([x] + (front + back)) == Sum(front) + x.size + Sum(back)
  {
    SumConcat(front + [x], back);
    SumConcat(front, [x]);
    SumCons(x, []);
    assert [x] + [] == [x];
    SumCons(x, front + back);
    SumConcat(front, back);
  }

  /** Promotion only reorders: the same items, the same total size, and every other item
      keeps its relative order behind the promoted one. */
  lemma {:induction false} MoveToFrontPermutes(s: seq<ContentItem>, i: nat)
    requires i < |s|
    ensures multiset(MoveToFront(s, i)) == multiset(s)
    ensures Sum(MoveToFront(s, i)) == Sum(s)
    ensures MoveToFront(s, i)[1..] == s[..i] + s[i + 1..]
  {
    var front, x, back := s[..i], s[i], s[i + 1..];
    assert Sum(s) == Sum(front) + x.size + Sum(back) by {
      assert s == front + [x] + back;
      SumAround(front, x, back);
    }
    assert Sum(MoveToFront(s, i)) == Sum(front) + x.size + Sum(back) by {
      assert MoveToFront(s, i) == [x] + (front + back);
      SumAround(front, x, back);
    }
    assert multiset(MoveToFront(s, i)) == multiset(s) by {
      assert s == front + [x] + back;
      assert MoveToFront(s, i) == [x] + (front + back);
    }
  }

  /** Promotion keeps the total size. */
  lemma {:induction false} MoveToFrontSum(s: seq<ContentItem>, i: nat)
    requires i < |s|
    ensures Sum(MoveToFront(s, i)) == Sum(s)
  {
    MoveToFrontPermutes(s, i);
  }

  // ---------------------------------------------------------------------------
  // Eviction

  /** Items left after evicting from the tail until size more units fit, or nothing is left. */
  function LruSurvivors(s: seq<ContentItem>, maxSize: int, size: int): seq<ContentItem>
    decreases |s|
  {
    if s == [] || size <= maxSize - Sum(s) then s
    else LruSurvivors(s[..|s| - 1], maxSize, size)
  }

  /** Items left after evicting from the head until size more units fit; `mruEvict` in
      code.py cannot evict the last remaining item, so the eviction stops at one item. */
  function MruSurvivors(s: seq<ContentItem>, maxSize: int, size: int): seq<ContentItem>
    decreases |s|
  {
    if |s| <= 1 || size <= maxSize - Sum(s) then s
    else MruSurvivors(s[1..], maxSize, size)
  }

  /** LRU eviction keeps a prefix of the list (the most recent items, in order), makes room
      whenever the item fits at all, and evicts no item that was not needed. */
  lemma {:induction false} LruSurvivorsSpec(s: seq<ContentItem>, maxSize: int, size: int)
    ensures var r := LruSurvivors(s, maxSize, size);
      && |r| <= |s| && r == s[..|r|]
      && (size <= maxSize ==> size <= maxSize - Sum(r))
      && (|r| < |s| ==> maxSize - Sum(s[..|r| + 1]) < size)
    decreases |s|
  {
    if s == [] || size <= maxSize - Sum(s) {
      assert s[..|s|] == s;
    } else {
      var init := s[..|s| - 1];
      LruSurvivorsSpec(init, maxSize, size);
      var r := LruSurvivors(init, maxSize, size);
      assert r == s[..|r|];
      if |r| < |init| {
        assert init[..|r| + 1] == s[..|r| + 1];
      } else {
        assert s[..|r| + 1] == s;
      }
    }
  }

  /** MRU eviction keeps a suffix of the list (the least recent items, in order), evicts no
      item that was not needed, and fails to make room only when a single item is left. */
  lemma {:induction false} MruSurvivorsSpec(s: seq<ContentItem>, maxSize: int, size: int)
    ensures var r := MruSurvivors(s, maxSize, size);
      && |r| <= |s| && r == s[|s| - |r|..]
      && (size <= maxSize && maxSize - Sum(r) < size ==> |r| == 1)
      && (|r| < |s| ==> maxSize - Sum(s[|s| - |r| - 1..]) < size)
    decreases |s|
  {
    if |s| <= 1 || size <= maxSize - Sum(s) {
      assert s[0..] == s;
    } else {
      var rest := s[1..];
      MruSurvivorsSpec(rest, maxSize, size);
      var r := MruSurvivors(rest, maxSize, size);
      assert rest[|rest| - |r|..] == s[|s| - |r|..];
      if |r| < |rest| {
        assert rest[|rest| - |r| - 1..] == s[|s| - |r| - 1..];
      } else {
        assert s[|s| - |r| - 1..] == s;
      }
    }
  }

  // ---------------------------------------------------------------------------
  // The list operations on values

  /** put: reject an item larger than the capacity, reject (and promote) a resident id,
      otherwise evict under the policy until the item fits and insert it at the head. */
  function PutSpec(s: seq<ContentItem>, maxSize: int, c: ContentItem, policy: Policy): (t: Transition)
    ensures t.outcome == TooLarge || t.outcome == Duplicate(c.cid) || t.outcome == Inserted(c) || t.outcome == Fault
    ensures t.outcome == Inserted(c) ==> t.items != [] && t.items[0] == c
    ensures t.outcome.Duplicate? ==> |t.items| == |s|
  {
    if c.size > maxSize then Transition(TooLarge, s)
    else if HasCid(s, c.cid) then Transition(Duplicate(c.cid), MoveToFront(s, FirstIndex(s, c.cid)))
    else match policy
      case LRU => Transition(Inserted(c), [c] + LruSurvivors(s, maxSize, c.size))
      case MRU =>
        var r := MruSurvivors(s, maxSize, c.size);
        if c.size <= maxSize - Sum(r) then Transition(Inserted(c), [c] + r) else Transition(Fault, r)
  }

  /** update: find the first item with id cid; when the new item fits in the space the old one
      frees (and the space left would not exceed the capacity), replace it and move it to the
      head; otherwise report a miss and change nothing. */
  function UpdateSpec(s: seq<ContentItem>, maxSize: int, cid: int, c: ContentItem): Transition
  {
    var i := FirstIndex(s, cid);
    if i == |s| then Transition(Miss, s)
    else
      var remaining := maxSize - Sum(s);
      if c.size <= remaining + s[i].size && maxSize >= remaining + s[i].size - c.size
      then Transition(Updated(c), MoveToFront(s[i := c], i))
      else Transition(Miss, s)
  }

  // ---------------------------------------------------------------------------
  // Properties of put

  /** An oversized item and a resident id are both rejected; a rejected duplicate only
      promotes the resident entry: same items, same accounting. */
  lemma {:induction false} PutRejections(s: seq<ContentItem>, maxSize: int, c: ContentItem, policy: Policy)
    ensures var t := PutSpec(s, maxSize, c, policy);
      && (t.outcome == TooLarge <==> c.size > maxSize)
      && (t.outcome == TooLarge ==> t.items == s)
      && (t.outcome.Duplicate? <==> c.size <= maxSize && HasCid(s, c.cid))
      && (t.outcome.Duplicate? ==> t.outcome.cid == c.cid && t.items[0].cid == c.cid
                                   && multiset(t.items) == multiset(s) && Sum(t.items) == Sum(s))
  {
    if c.size <= maxSize && HasCid(s, c.cid) {
      MoveToFrontPermutes(s, FirstIndex(s, c.cid));
    }
  }

  /** Under LRU an admissible new item is always inserted at the head, behind it stays the
      longest prefix of the old list that leaves room for it. */
  lemma {:induction false} PutLruEvictsTail(s: seq<ContentItem>, maxSize: int, c: ContentItem)
    requires c.size <= maxSize && !HasCid(s, c.cid)
    ensures var t := PutSpec(s, maxSize, c, LRU);
      && t.outcome == Inserted(c) && |t.items| >= 1 && t.items[0] == c
      && var r := t.items[1..];
      && |r| <= |s| && r == s[..|r|]
      && Sum(t.items) <= maxSize
      && (|r| < |s| ==> maxSize < c.size + Sum(s[..|r| + 1]))
  {
    LruSurvivorsSpec(s, maxSize, c.size);
    var r := LruSurvivors(s, maxSize, c.size);
    assert ([c] + r)[1..] == r;
    SumConcat([c], r);
  }

  /** Under MRU an admissible new item is inserted at the head with the longest suffix of the
      old list that leaves room for it; when one item is left and still too large to make room,
      `mruEvict` in code.py crashes with that one item left. */
  lemma {:induction false} PutMruEvictsHead(s: seq<ContentItem>, maxSize: int, c: ContentItem)
    requires c.size <= maxSize && !HasCid(s, c.cid)
    ensures var t := PutSpec(s, maxSize, c, MRU);
      && (t.outcome == Inserted(c) || t.outcome == Fault)
      && (t.outcome == Inserted(c) ==>
            && |t.items| >= 1 && t.items[0] == c
            && var r := t.items[1..];
            && |r| <= |s| && r == s[|s| - |r|..]
            && Sum(t.items) <= maxSize
            && (|r| < |s| ==> maxSize < c.size + Sum(s[|s| - |r| - 1..])))
      && (t.outcome == Fault ==>
            |t.items| == 1 && t.items == s[|s| - 1..] && maxSize < c.size + Sum(t.items))
  {
    MruSurvivorsSpec(s, maxSize, c.size);
    var r := MruSurvivors(s, maxSize, c.size);
    assert ([c] + r)[1..] == r;
    SumConcat([c], r);
  }

  /** put keeps the segment within its capacity. */
  lemma {:induction false} PutKeepsCapacity(s: seq<ContentItem>, maxSize: int, c: ContentItem, policy: Policy)
    requires Sum(s) <= maxSize
    ensures Sum(PutSpec(s, maxSize, c, policy).items) <= maxSize
  {
    if c.size > maxSize {
    } else if HasCid(s, c.cid) {
      MoveToFrontPermutes(s, FirstIndex(s, c.cid));
    } else if policy == LRU {
      PutLruEvictsTail(s, maxSize, c);
    } else {
      PutMruEvictsHead(s, maxSize, c);
      MruSurvivorsSpec(s, maxSize, c.size);
      var r := MruSurvivors(s, maxSize, c.size);
      if |r| < |s| {
        assert r == s[|s| - |r|..];
        assert s == s[..|s| - |r|] + r;
        SumConcat(s[..|s| - |r|], r);
      } else {
        assert r == s;
      }
    }
  }

  // ---------------------------------------------------------------------------
  // Properties of update

  /** update succeeds exactly when the id is resident and the new item fits in the space left
      plus the space the old item frees; the second capacity test never decides anything when
      the segment is within capacity. */
  lemma {:induction false} UpdateSucceedsIff(s: seq<ContentItem>, maxSize: int, cid: int, c: ContentItem)
    requires Sum(s) <= maxSize
    ensures var t := UpdateSpec(s, maxSize, cid, c);
      && (t.outcome == Updated(c) <==>
            HasCid(s, cid) && Sum(s) - s[FirstIndex(s, cid)].size + c.size <= maxSize)
      && (t.outcome != Updated(c) ==> t.outcome == Miss && t.items == s)
  {
    var i := FirstIndex(s, cid);
    if i < |s| {
      assert Sum(s) >= s[i].size by {
        assert s == s[..i] + s[i..];
        SumConcat(s[..i], s[i..]);
      }
    }
  }

  /** A successful update keeps the number of items, charges exactly the size difference,
      stays within capacity, puts the new item at the head and keeps the others in order. */
  lemma {:induction false} UpdateAccounting(s: seq<ContentItem>, maxSize: int, cid: int, c: ContentItem)
    requires Sum(s) <= maxSize
    requires UpdateSpec(s, maxSize, cid, c).outcome == Updated(c)
    ensures var t := UpdateSpec(s, maxSize, cid, c).items; var i := FirstIndex(s, cid);
      && |t| == |s| && t[0] == c
      && t[1..] == s[..i] + s[i + 1..]
      && Sum(t) == Sum(s) - s[i].size + c.size
      && Sum(t) <= maxSize
  {
    var i := FirstIndex(s, cid);
    SumReplace(s, i, c);
    MoveToFrontPermutes(s[i := c], i);
    assert s[i := c][..i] == s[..i];
    assert s[i := c][i + 1..] == s[i + 1..];
  }

  /** Looking an item up calls update with the item's own value: when the segment is within
      capacity this always succeeds and amounts to promoting the item. */
  lemma {:induction false} UpdateWithOwnValuePromotes(s: seq<ContentItem>, maxSize: int, i: nat)
    requires Sum(s) <= maxSize
    requires i < |s| && i == FirstIndex(s, s[i].cid)
    ensures UpdateSpec(s, maxSize, s[i].cid, s[i]) == Transition(Updated(s[i]), MoveToFront(s, i))
  {
  }

  // ---------------------------------------------------------------------------
  // Segment invariants kept by the whole cache

  /** No two resident items share an id. */
  ghost predicate UniqueIds(s: seq<ContentItem>)
  {
    forall a, b :: 0 <= a < b < |s| ==> s[a].cid != s[b].cid
  }

  /** Every item of the sequence classifies to segment k. */
  ghost predicate InSegment(s: seq<ContentItem>, k: nat)
  {
    forall a :: 0 <= a < |s| ==> Classify(s[a]) == k
  }

  ghost predicate SegmentInvariant(s: seq<ContentItem>, k: nat)
  {
    UniqueIds(s) && InSegment(s, k)
  }

  lemma {:induction false} MoveToFrontKeepsSegment(s: seq<ContentItem>, i: nat, k: nat)
    requires i < |s| && SegmentInvariant(s, k)
    ensures SegmentInvariant(MoveToFront(s, i), k)
  {
  }

  /** A contiguous run of a segment is a segment. */
  lemma {:induction false} SliceKeepsSegment(s: seq<ContentItem>, lo: nat, hi: nat, k: nat)
    requires lo <= hi <= |s| && SegmentInvariant(s, k)
    ensures SegmentInvariant(s[lo..hi], k)
    ensures forall a :: 0 <= a < hi - lo ==> s[lo..hi][a] == s[lo + a]
  {
  }

  /** A new item whose id is not resident can go in front of a segment. */
  lemma {:induction false} ConsKeepsSegment(c: ContentItem, r: seq<ContentItem>, k: nat)
    requires SegmentInvariant(r, k) && Classify(c) == k && !HasCid(r, c.cid)
    ensures SegmentInvariant([c] + r, k)
  {
  }

  /** Inserting through put keeps ids unique and items in the segment they classify to. */
  lemma {:induction false} PutKeepsSegment(s: seq<ContentItem>, maxSize: int, c: ContentItem, policy: Policy, k: nat)
    requires SegmentInvariant(s, k) && Classify(c) == k
    ensures SegmentInvariant(PutSpec(s, maxSize, c, policy).items, k)
  {
    if c.size > maxSize {
    } else if HasCid(s, c.cid) {
      MoveToFrontKeepsSegment(s, FirstIndex(s, c.cid), k);
    } else {
      var r: seq<ContentItem>;
      var lo: nat, hi: nat;
      if policy == LRU {
        LruSurvivorsSpec(s, maxSize, c.size);
        r := LruSurvivors(s, maxSize, c.size);
        lo, hi := 0, |r|;
      } else {
        MruSurvivorsSpec(s, maxSize, c.size);
        r := MruSurvivors(s, maxSize, c.size);
        lo, hi := |s| - |r|, |s|;
      }
      assert r == s[lo..hi];
      SliceKeepsSegment(s, lo, hi, k);
      assert !HasCid(r, c.cid) by {
        forall a | 0 <= a < |r|
          ensures r[a].cid != c.cid
        {
          assert r[a] == s[lo + a];
        }
      }
      ConsKeepsSegment(c, r, k);
    }
  }

  /** Replacing an item by one with the same id and the same segment keeps the invariant. */
  lemma {:induction false} UpdateKeepsSegment(s: seq<ContentItem>, maxSize: int, c: ContentItem, k: nat)
    requires SegmentInvariant(s, k) && Classify(c) == k
    ensures SegmentInvariant(UpdateSpec(s, maxSize, c.cid, c).items, k)
  {
    var i := FirstIndex(s, c.cid);
    if i < |s| {
      var u := s[i := c];
      assert SegmentInvariant(u, k);
      MoveToFrontKeepsSegment(u, i, k);
    }
  }
}
