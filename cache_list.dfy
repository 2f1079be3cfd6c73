/** One cache segment as a doubly linked list of nodes, head most recently used. */
module CacheLists {
  import opened ContentItems
  import opened EvictionModel

  /** A link of the list: the item it holds and its two neighbours. */
  class Node {
    var value: ContentItem
    var next: Node?
    var previous: Node?

    constructor (content: ContentItem)
      ensures value == content && next == null && previous == null
    {
      value := content;
      next := null;
      previous := null;
    }
  }

  /** Node k of ns holds item k. */
  ghost predicate Holds(ns: seq<Node>, items: seq<ContentItem>)
    reads ns`value
  {
    && |ns| == |items|
    && forall k :: 0 <= k < |ns| ==> ns[k].value == items[k]
  }

  /** Every node of ns belongs to repr. */
  ghost predicate Within(ns: seq<Node>, repr: set<object>)
  {
    forall k :: 0 <= k < |ns| ==> ns[k] in repr
  }

  /** Moving a node to the front moves its item with it. */
  lemma HoldsMoveToFront(ns: seq<Node>, items: seq<ContentItem>, repr: set<object>, i: nat)
    requires Within(ns, repr) && Holds(ns, items) && i < |ns|
    ensures Within(MoveToFront(ns, i), repr) && Holds(MoveToFront(ns, i), MoveToFront(items, i))
  {
  }

  /** A new first node carries its item and joins the footprint. */
  lemma HoldsCons(n: Node, ns: seq<Node>, items: seq<ContentItem>, repr: set<object>)
    requires Within(ns, repr) && Holds(ns, items)
    ensures Within([n] + ns, repr + {n}) && Holds([n] + ns, [n.value] + items)
  {
  }

  /** A bounded list of content items ordered by recency. The ghost sequence `nodes` lists
      the nodes from head to tail and `items` their values; Valid() ties both to the links. */
  class CacheList {
    var head: Node?
    var tail: Node?
    const maxSize: nat
    var remainingSpace: int
    var numItems: nat

    ghost var nodes: seq<Node>
    ghost var items: seq<ContentItem>
    ghost var Repr: set<object>

    /** The nodes of ns, read from head to tail, are what the links connect: each next and
        previous pointer leads to the neighbour in ns (or to null at the ends), and head and
        tail are its first and last nodes. Only the link fields are read, so storing a new
        value in a node leaves the chain intact. */
    ghost predicate Chain(ns: seq<Node>)
      reads this`head, this`tail, ns`next, ns`previous
    {
      && (forall k {:trigger ns[k].next} :: 0 <= k < |ns| ==>
            ns[k].next == if k + 1 < |ns| then ns[k + 1] else null)
      && (forall k {:trigger ns[k].previous} :: 0 <= k < |ns| ==>
            ns[k].previous == if 0 < k then ns[k - 1] else null)
      && (ns == [] ==> head == null && tail == null)
      && (ns != [] ==> head == ns[0] && tail == ns[|ns| - 1])
      && (forall a, b :: 0 <= a < b < |ns| ==> ns[a] != ns[b])
    }

    ghost predicate Valid()
      reads this, Repr
    {
      && this in Repr
      && |nodes| == numItems
      && Sum(items) <= maxSize
      && remainingSpace == maxSize - Sum(items)
      && Within(nodes, Repr) && Holds(nodes, items) && Chain(nodes)
    }

    constructor (size: nat)
      ensures Valid() && fresh(Repr)
      ensures maxSize == size && items == [] && remainingSpace == size && numItems == 0
      ensures head == null && tail == null
    {
      head := null;
      tail := null;
      maxSize := size;
      remainingSpace := size;
      numItems := 0;
      nodes := [];
      items := [];
      Repr := {this};
    }

    /** The number of resident items. */
    method Len() returns (n: nat)
      requires Valid()
      ensures n == |items|
    {
      n := numItems;
    }

    /** The node reached from the tail after k steps along `previous`. */
    ghost function WalkBackward(k: nat): (n: Node?)
      requires Valid()
      reads this, Repr
      ensures n == if k < |nodes| then nodes[|nodes| - 1 - k] else null
    {
      if k == 0 then tail
      else
        var m := WalkBackward(k - 1);
        if m == null then null else m.previous
    }

    /** The node reached from the head after k steps along `next`. */
    ghost function WalkForward(k: nat): (n: Node?)
      requires Valid()
      reads this, Repr
      ensures n == if k < |nodes| then nodes[k] else null
    {
      if k == 0 then head
      else
        var m := WalkForward(k - 1);
        if m == null then null else m.next
    }

    /** The list is empty exactly when head or tail is missing; otherwise nothing precedes
        the head and nothing follows the tail. Walking `previous` from the tail reaches the
        head in exactly numItems - 1 steps and falls off the list on the next one; walking
        `next` from the head mirrors it. */
    lemma Traversals()
      requires Valid()
      ensures (head == null <==> numItems == 0) && (tail == null <==> numItems == 0)
      ensures head != null ==> head.previous == null && tail != null && tail.next == null
      ensures numItems > 0 ==> WalkBackward(numItems - 1) == head && WalkForward(numItems - 1) == tail
      ensures WalkBackward(numItems) == null && WalkForward(numItems) == null
      ensures forall k :: 0 <= k < numItems ==> WalkForward(k) == WalkBackward(numItems - 1 - k)
    {
    }

    /** Empty the list: all space becomes available again. */
    method Clear()
      requires Valid()
      modifies this
      ensures Valid() && Repr == old(Repr)
      ensures items == [] && remainingSpace == maxSize && numItems == 0
      ensures head == null && tail == null
    {
      remainingSpace := maxSize;
      numItems := 0;
      tail := null;
      head := null;
      nodes := [];
      items := [];
    }

    /** Evict the least recently used item (the tail); nothing happens on an empty list. */
    method LruEvict()
      requires Valid()
      modifies Repr
      ensures Valid() && Repr == old(Repr)
      ensures old(items) == [] ==> items == [] && remainingSpace == old(remainingSpace)
      ensures old(items) != [] ==>
        && items == old(items)[..|old(items)| - 1]
        && remainingSpace == old(remainingSpace) + old(items)[|old(items)| - 1].size
        && numItems == old(numItems) - 1
    {
      if numItems == 0 {
        return;
      } else if numItems == 1 {
        SumDropLast(items);
        var h := head;
        head := null;
        tail := null;
        remainingSpace := remainingSpace + h.value.size;
        numItems := numItems - 1;
        nodes := [];
        items := [];
      } else {
        SumDropLast(items);
        var currentTail := tail;
        assert nodes[|nodes| - 1].previous == nodes[|nodes| - 2];
        var previous := currentTail.previous;
        previous.next := null;
        tail := previous;
        remainingSpace := remainingSpace + currentTail.value.size;
        numItems := numItems - 1;
        nodes := nodes[..|nodes| - 1];
        items := items[..|items| - 1];
      }
    }

    /** Evict the most recently used item (the head); nothing happens on an empty list.
        On a one-item list `mruEvict` in code.py dereferences a missing successor: ok is false then
        and the list is left as it was. */
    method MruEvict() returns (ok: bool)
      requires Valid()
      modifies Repr
      ensures Valid() && Repr == old(Repr)
      ensures ok <==> |old(items)| != 1
      ensures |old(items)| <= 1 ==> items == old(items) && remainingSpace == old(remainingSpace)
      ensures |old(items)| >= 2 ==>
        && items == old(items)[1..]
        && remainingSpace == old(remainingSpace) + old(items)[0].size
        && numItems == old(numItems) - 1
    {
      if numItems == 0 {
        return true;
      }
      var h := head;
      var nextHead := h.next;
      assert |nodes| >= 2 ==> nextHead == nodes[1];
      if nextHead == null {
        return false;
      }
      numItems := numItems - 1;
      remainingSpace := remainingSpace + h.value.size;
      nextHead.previous := null;
      h.next := null;
      head := nextHead;
      nodes := nodes[1..];
      items := items[1..];
      return true;
    }

    /** Whether an item with id cid is resident. A hit re-stores the item found with its own
        value, which moves it to the head and leaves the accounting as it was. */
    method Contains(cid: int) returns (found: bool)
      requires Valid()
      modifies Repr
      ensures Valid() && Repr == old(Repr) && remainingSpace == old(remainingSpace)
      ensures found <==> HasCid(old(items), cid)
      ensures found ==> items == MoveToFront(old(items), FirstIndex(old(items), cid))
      ensures found ==> head != null && head.value == old(items)[FirstIndex(old(items), cid)]
      ensures !found ==> items == old(items)
    {
      var current := head;
      ghost var i := 0;
      while current != null
        invariant Valid() && Repr == old(Repr)
        invariant nodes == old(nodes) && items == old(items) && remainingSpace == old(remainingSpace)
        invariant 0 <= i <= |nodes|
        invariant current == if i < |nodes| then nodes[i] else null
        invariant forall j :: 0 <= j < i ==> items[j].cid != cid
        decreases |nodes| - i
      {
        if current.value.cid == cid {
          assert FirstIndex(items, cid) == i;
          UpdateWithOwnValuePromotes(items, maxSize, i);
          var _ := Update(current.value.cid, current.value);
          return true;
        }
        current := current.next;
        i := i + 1;
      }
      return false;
    }

    /** put: reject an item larger than the capacity, or a resident id (promoting the resident
        entry); otherwise evict under the policy until the item fits and insert it at the head. */
    method Put(content: ContentItem, policy: Policy) returns (r: Outcome)
      requires Valid()
      modifies Repr
      ensures Valid() && fresh(Repr - old(Repr))
      ensures Transition(r, items) == PutSpec(old(items), maxSize, content, policy)
    {
      if content.size > maxSize {
        return TooLarge;
      }
      var present := Contains(content.cid);
      if present {
        return Duplicate(content.cid);
      }
      while remainingSpace < content.size
        invariant Valid() && Repr == old(Repr)
        invariant policy == LRU ==>
          LruSurvivors(items, maxSize, content.size) == LruSurvivors(old(items), maxSize, content.size)
        invariant policy == MRU ==>
          MruSurvivors(items, maxSize, content.size) == MruSurvivors(old(items), maxSize, content.size)
        decreases numItems
      {
        match policy
        case MRU =>
          var ok := MruEvict();
          if !ok {
            return Fault;
          }
        case LRU =>
          LruEvict();
      }
      InsertAtHead(content);
      return Inserted(content);
    }

    /** The insertion step of put: a new node holding content becomes the head. */
    method InsertAtHead(content: ContentItem)
      requires Valid() && content.size <= remainingSpace
      modifies Repr
      ensures Valid() && fresh(Repr - old(Repr))
      ensures items == [content] + old(items) && remainingSpace == old(remainingSpace) - content.size
    {
      var newNode := new Node(content);
      Attach(newNode);
    }

    /** Link a node that is not yet part of the list in front of the head and charge its size. */
    method Attach(newNode: Node)
      requires Valid() && newNode !in Repr && newNode.next == null && newNode.previous == null
      requires newNode.value.size <= remainingSpace
      modifies this, nodes`previous, newNode`next
      ensures Valid() && Repr == old(Repr) + {newNode}
      ensures items == [newNode.value] + old(items) && remainingSpace == old(remainingSpace) - newNode.value.size
    {
      LinkFirst(newNode, nodes);
      HoldsCons(newNode, nodes, items, Repr);
      SumCons(newNode.value, items);
      remainingSpace := remainingSpace - newNode.value.size;
      numItems := numItems + 1;
      nodes := [newNode] + nodes;
      items := [newNode.value] + items;
      Repr := Repr + {newNode};
    }

    /** Find the first item with id cid, scanning from the head; when the new content fits,
        store it there, charge the size difference and move the node to the head. */
    method Update(cid: int, content: ContentItem) returns (r: Outcome)
      requires Valid()
      modifies Repr
      ensures Valid() && Repr == old(Repr)
      ensures Transition(r, items) == UpdateSpec(old(items), maxSize, cid, content)
      ensures r.Updated? ==>
        && nodes == MoveToFront(old(nodes), FirstIndex(old(items), cid))
        && remainingSpace == old(remainingSpace) + old(items)[FirstIndex(old(items), cid)].size - content.size
      ensures !r.Updated? ==> nodes == old(nodes) && remainingSpace == old(remainingSpace)
    {
      var current := head;
      ghost var i := 0;
      while current != null
        invariant Valid() && Repr == old(Repr)
        invariant nodes == old(nodes) && items == old(items) && remainingSpace == old(remainingSpace)
        invariant 0 <= i <= |nodes|
        invariant current == if i < |nodes| then nodes[i] else null
        invariant forall j :: 0 <= j < i ==> items[j].cid != cid
        decreases |nodes| - i
      {
        if current.value.cid == cid {
          assert FirstIndex(items, cid) == i;
          var previousSize := current.value.size;
          if content.size <= remainingSpace + previousSize {
            if maxSize >= remainingSpace + previousSize - content.size {
              StoreAndPromote(current, i, content);
              return Updated(content);
            } else {
              return Miss;
            }
          } else {
            return Miss;
          }
        }
        current := current.next;
        i := i + 1;
      }
      return Miss;
    }

    /** First step of a successful update: charge the size difference and store the new
        content in the node at position i. */
    method Store(current: Node, ghost i: nat, content: ContentItem)
      requires Valid() && i < |nodes| && current == nodes[i]
      requires content.size <= remainingSpace + items[i].size
      modifies this, current`value
      ensures Valid() && Repr == old(Repr) && nodes == old(nodes) && items == old(items)[i := content]
      ensures remainingSpace == old(remainingSpace) + old(items)[i].size - content.size
    {
      SumReplace(items, i, content);
      remainingSpace := remainingSpace + current.value.size - content.size;
      current.value := content;
      items := items[i := content];
    }

    /** A successful update: store content in the node at position i, charging the size
        difference, and make that node the head. */
    method StoreAndPromote(current: Node, ghost i: nat, content: ContentItem)
      requires Valid() && i < |nodes| && current == nodes[i]
      requires content.size <= remainingSpace + items[i].size
      modifies this, nodes`value, nodes`next, nodes`previous
      ensures Valid() && Repr == old(Repr)
      ensures items == MoveToFront(old(items)[i := content], i) && nodes == MoveToFront(old(nodes), i)
      ensures remainingSpace == old(remainingSpace) + old(items)[i].size - content.size
    {
      Store(current, i, content);
      if current != head {
        Promote(current, i);
      } else {
        assert MoveToFront(items, 0) == items && MoveToFront(nodes, 0) == nodes;
      }
    }

    /** Move the node at position i > 0 to the head. */
    method Promote(current: Node, ghost i: nat)
      requires Valid() && 0 < i < |nodes| && current == nodes[i]
      modifies this, nodes`next, nodes`previous
      ensures Valid() && Repr == old(Repr)
      ensures items == MoveToFront(old(items), i) && nodes == MoveToFront(old(nodes), i)
      ensures remainingSpace == old(remainingSpace)
    {
      Relink(current, nodes, i);
      HoldsMoveToFront(nodes, items, Repr, i);
      MoveToFrontSum(items, i);
      nodes := MoveToFront(nodes, i);
      items := MoveToFront(items, i);
    }

    /** The relinking behind Promote, on the links alone. */
    method Relink(current: Node, ghost ns: seq<Node>, ghost i: nat)
      requires Chain(ns) && 0 < i < |ns| && current == ns[i]
      modifies this`head, this`tail, ns`next, ns`previous
      ensures Chain(MoveToFront(ns, i))
    {
      Unlink(current, ns, i);
      PushFront(current, ns[..i] + ns[i + 1..]);
      assert [current] + (ns[..i] + ns[i + 1..]) == MoveToFront(ns, i);
    }

    /** The relinking in put: a new, unlinked node becomes the head (and the tail of an
        empty list). */
    method LinkFirst(newNode: Node, ghost ns: seq<Node>)
      requires Chain(ns) && newNode !in ns && newNode.next == null && newNode.previous == null
      modifies this`head, this`tail, newNode`next, ns`previous
      ensures Chain([newNode] + ns)
    {
      if head == null {
        head := newNode;
        tail := newNode;
      } else {
        newNode.next := head;
        head.previous := newNode;
        head := newNode;
      }
    }

    /** First half of promoting the node at position i > 0: join its two neighbours, moving
        the tail back when it was the tail. The node itself is left dangling. */
    method Unlink(current: Node, ghost ns: seq<Node>, ghost i: nat)
      requires Chain(ns) && 0 < i < |ns| && current == ns[i]
      modifies this`tail, ns`next, ns`previous
      ensures Chain(ns[..i] + ns[i + 1..]) && current !in ns[..i] + ns[i + 1..] && head == old(head)
    {
      var previous := current.previous;
      var nextNode := current.next;
      if nextNode != null {
        nextNode.previous := previous;
      } else {
        tail := previous;
      }
      if previous != null {
        previous.next := nextNode;
      } else {
        // unreachable: only the head lacks a predecessor
        assert false;
      }
    }

    /** Second half of promoting a node: link a node that is not in the chain in front of
        the current head. */
    method PushFront(current: Node, ghost ns: seq<Node>)
      requires Chain(ns) && ns != [] && current !in ns
      modifies this`head, current`next, current`previous, ns`previous
      ensures Chain([current] + ns) && tail == old(tail)
    {
      current.next := head;
      current.previous := null;
      head.previous := current;
      head := current;
    }
  }
}
