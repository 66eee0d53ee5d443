/** The circular doubly linked list of `list.h`. A C record embeds its `list_node`; here the
    node carries the record as `item`. The list head is a node whose `item` means nothing. */
module IntrusiveList {

  class ListNode<T(0)> {
    var next: ListNode<T>
    var prev: ListNode<T>
    var item: T

    /** A list head, initialised to the empty ring. */
    constructor Head()
      ensures next == this && prev == this
    {
      next, prev := this, this;
    }

    /** A freshly allocated record, not yet linked anywhere. */
    constructor Record(item: T)
      ensures this.item == item
    {
      next, prev := this, this;
      this.item := item;
    }
  }

  /** The node at position `i` of the ring that starts and ends at `head`. */
  ghost function At<T(0)>(head: ListNode<T>, nodes: seq<ListNode<T>>, i: int): ListNode<T>
    requires -1 <= i <= |nodes|
  {
    if 0 <= i < |nodes| then nodes[i] else head
  }

  /** Positions `i - 1` and `i` point at each other. */
  ghost predicate Linked<T(0)>(head: ListNode<T>, nodes: seq<ListNode<T>>, i: nat)
    requires i <= |nodes|
    reads head`next, head`prev, nodes`next, nodes`prev
  {
    At(head, nodes, i - 1).next == At(head, nodes, i) && At(head, nodes, i).prev == At(head, nodes, i - 1)
  }

  /** `nodes`, in order, are the entries of the ring through `head`, in both directions. */
  ghost predicate Ring<T(0)>(head: ListNode<T>, nodes: seq<ListNode<T>>)
    reads head`next, head`prev, nodes`next, nodes`prev
  {
    head !in nodes && forall i :: 0 <= i <= |nodes| ==> Linked(head, nodes, i)
  }

  /** No entry occurs twice on a ring: walking back from two equal entries would reach the head
      from inside the ring. */
  lemma {:induction false} Distinct<T(0)>(head: ListNode<T>, nodes: seq<ListNode<T>>, i: nat, j: nat)
    requires Ring(head, nodes) && i < j < |nodes|
    ensures nodes[i] != nodes[j]
  {
    assert Linked(head, nodes, i) && Linked(head, nodes, j);
    if nodes[i] == nodes[j] && i > 0 {
      Distinct(head, nodes, i - 1, j - 1);
    }
  }

  lemma DistinctFrom<T(0)>(head: ListNode<T>, nodes: seq<ListNode<T>>, k: int)
    requires Ring(head, nodes)
    ensures forall i :: 0 <= i < |nodes| && 0 <= k < |nodes| && i != k ==> nodes[i] != nodes[k]
  {
    forall i | 0 <= i < |nodes| && 0 <= k < |nodes| && i != k
      ensures nodes[i] != nodes[k]
    {
      if i < k {
        Distinct(head, nodes, i, k);
      } else {
        Distinct(head, nodes, k, i);
      }
    }
  }

  /** The records linked into a ring, in order. */
  ghost function ItemsOf<T(0)>(nodes: seq<ListNode<T>>): (items: seq<T>)
    reads nodes`item
    ensures |items| == |nodes|
    ensures forall i :: 0 <= i < |nodes| ==> items[i] == nodes[i].item
  {
    if nodes == [] then []
    else ItemsOf(nodes[..|nodes| - 1]) + [nodes[|nodes| - 1].item]
  }

  function RemoveAt<T>(s: seq<T>, k: nat): (r: seq<T>)
    requires k < |s|
  {
    s[..k] + s[k + 1..]
  }

  function InsertAt<T>(s: seq<T>, k: nat, x: T): (r: seq<T>)
    requires k <= |s|
  {
    s[..k] + [x] + s[k..]
  }

  /** A walk over a list that may drop the entry it stands on: of the entries `all` the walk
      started with it has passed `i`, and `k` of those are still listed. */
  ghost predicate Walk<T>(nodes: seq<T>, k: nat, all: seq<T>, i: nat) {
    && i <= |all| && k <= |nodes| && all[i..] == nodes[k..]
    && (forall x :: x in nodes ==> x in all)
  }

  lemma WalkStart<T>(nodes: seq<T>)
    ensures Walk(nodes, 0, nodes, 0)
  {
  }

  lemma WalkKeep<T>(nodes: seq<T>, k: nat, all: seq<T>, i: nat)
    requires Walk(nodes, k, all, i) && k < |nodes|
    ensures i < |all| && nodes[k] == all[i] && Walk(nodes, k + 1, all, i + 1)
  {
    assert |all[i..]| == |nodes[k..]|;
    assert nodes[k..][0] == nodes[k] && all[i..][0] == all[i];
    assert nodes[k..][1..] == nodes[k + 1..] && all[i..][1..] == all[i + 1..];
  }

  lemma WalkDrop<T>(nodes: seq<T>, k: nat, all: seq<T>, i: nat)
    requires Walk(nodes, k, all, i) && k < |nodes|
    ensures |RemoveAt(nodes, k)| == |nodes| - 1
    ensures Walk(RemoveAt(nodes, k), k, all, i + 1)
    ensures k + 1 < |nodes| ==> RemoveAt(nodes, k)[k] == nodes[k + 1]
  {
    WalkKeep(nodes, k, all, i);
    assert RemoveAt(nodes, k)[k..] == nodes[k + 1..];
  }

  lemma WalkWithin<T>(nodes: seq<T>, k: nat, all: seq<T>, i: nat)
    requires Walk(nodes, k, all, i)
    ensures forall j :: 0 <= j < |nodes| ==> nodes[j] in all
    ensures k == |nodes| <==> i == |all|
  {
  }

  class List<T(0)> {
    const head: ListNode<T>
    ghost var nodes: seq<ListNode<T>>

    ghost predicate Valid()
      reads `nodes, head`next, head`prev, nodes`next, nodes`prev
    {
      Ring(head, nodes)
    }

    ghost function Items(): (items: seq<T>)
      reads `nodes, nodes`item
    {
      ItemsOf(nodes)
    }

    constructor ()
      ensures Valid() && nodes == [] && fresh(head)
    {
      head := new ListNode<T>.Head();
      nodes := [];
    }

    /** Position `k` is its entry, or the head once every entry has been passed; and it is what
        `list_next_entry` finds before position `k`. */
    lemma AtIs(k: nat)
      requires Valid()
      ensures k < |nodes| ==> At(head, nodes, k) == nodes[k]
      ensures k <= |nodes| ==> (At(head, nodes, k) == head <==> k == |nodes|)
      ensures k <= |nodes| ==> At(head, nodes, k - 1).next == At(head, nodes, k)
      ensures At(head, nodes, -1) == head
    {
      assert k <= |nodes| ==> Linked(head, nodes, k);
    }

    lemma HeadOutside()
      requires Valid()
      ensures head !in nodes
    {
    }

    lemma LastIs()
      requires Valid() && nodes != []
      ensures head.prev == nodes[|nodes| - 1]
    {
      assert Linked(head, nodes, |nodes|);
    }

    /** `list_add_after(pos, added)`, with `pos` at position `k - 1` (-1 for the head). */
    method AddAfter(pos: ListNode<T>, added: ListNode<T>, ghost k: nat)
      requires Valid() && k <= |nodes| && pos == At(head, nodes, k - 1)
      requires added != head && added !in nodes
      modifies `nodes, head`next, head`prev, nodes`next, nodes`prev, added`next, added`prev
      ensures Valid() && nodes == InsertAt(old(nodes), k, added)
      ensures Items() == InsertAt(old(Items()), k, added.item)
      ensures forall n :: n in nodes ==> n == added || n in old(nodes)
    {
      assert Linked(head, nodes, k);
      var next := pos.next;
      var prev := pos;
      Insert(prev, next, added, k);
    }

    /** `list_add_before(pos, added)`, with `pos` at position `k` (|nodes| for the head). */
    method AddBefore(pos: ListNode<T>, added: ListNode<T>, ghost k: nat)
      requires Valid() && k <= |nodes| && pos == At(head, nodes, k)
      requires added != head && added !in nodes
      modifies `nodes, head`next, head`prev, nodes`next, nodes`prev, added`next, added`prev
      ensures Valid() && nodes == InsertAt(old(nodes), k, added)
      ensures Items() == InsertAt(old(Items()), k, added.item)
      ensures forall n :: n in nodes ==> n == added || n in old(nodes)
    {
      assert Linked(head, nodes, k);
      var next := pos;
      var prev := pos.prev;
      Insert(prev, next, added, k);
    }

    /** The four assignments both insertions end with. */
    method Insert(prev: ListNode<T>, next: ListNode<T>, added: ListNode<T>, ghost k: nat)
      requires Valid() && k <= |nodes|
      requires prev == At(head, nodes, k - 1) && next == At(head, nodes, k)
      requires added != head && added !in nodes
      modifies `nodes, head`next, head`prev, nodes`next, nodes`prev, added`next, added`prev
      ensures Valid() && nodes == InsertAt(old(nodes), k, added)
      ensures Items() == InsertAt(old(Items()), k, added.item)
      ensures forall n :: n in nodes ==> n == added || n in old(nodes)
    {
      hide ItemsOf;
      DistinctFrom(head, nodes, k - 1);
      DistinctFrom(head, nodes, k);
      added.next := next;
      added.prev := prev;
      next.prev := added;
      prev.next := added;
      ghost var was := nodes;
      nodes := InsertAt(nodes, k, added);
      forall i | 0 <= i <= |nodes|
        ensures Linked(head, nodes, i)
      {
        if i < k {
          assert old(Linked(head, nodes, i));
        } else if i > k + 1 {
          assert old(Linked(head, nodes, i - 1));
        }
      }
    }

    /** `list_remove(entry)`: the entry keeps its own links, so an iteration that is standing
        on it can still move on. */
    method Remove(entry: ListNode<T>, ghost k: nat)
      requires Valid() && k < |nodes| && nodes[k] == entry
      modifies `nodes, head`next, head`prev, nodes`next, nodes`prev
      ensures Valid() && nodes == RemoveAt(old(nodes), k)
      ensures Items() == RemoveAt(old(Items()), k)
      ensures entry.next == old(entry.next) && entry.prev == old(entry.prev)
      ensures entry !in nodes
    {
      hide ItemsOf;
      DistinctFrom(head, nodes, k - 1);
      DistinctFrom(head, nodes, k);
      DistinctFrom(head, nodes, k + 1);
      assert Linked(head, nodes, k) && Linked(head, nodes, k + 1);
      var prev := entry.prev;
      var next := entry.next;
      prev.next := next;
      next.prev := prev;
      nodes := RemoveAt(nodes, k);
      forall i | 0 <= i <= |nodes|
        ensures Linked(head, nodes, i)
      {
        if i < k {
          assert old(Linked(head, nodes, i));
        } else if i > k {
          assert old(Linked(head, nodes, i + 1));
        }
      }
    }

    /** An assignment to fields of the record at position `k`. */
    method Update(entry: ListNode<T>, item: T, ghost k: nat)
      requires Valid() && k < |nodes| && nodes[k] == entry
      modifies entry`item
      ensures entry.item == item && Items() == old(Items())[k := item]
    {
      DistinctFrom(head, nodes, k);
      entry.item := item;
    }

    /** Moves the whole ring of `from` to this list by relinking its first and last entries: the
        theft in `access_worker_iteration`. This list must be freshly initialised. */
    method TakeAll(from: List<T>)
      requires Valid() && nodes == [] && from.Valid() && head != from.head && head !in from.nodes
      modifies `nodes, head`next, head`prev,
               from`nodes, from.head`next, from.head`prev, from.nodes`next, from.nodes`prev
      ensures Valid() && nodes == old(from.nodes)
      ensures from.Valid() && from.nodes == []
    {
      ghost var last := |from.nodes| - 1;
      DistinctFrom(from.head, from.nodes, 0);
      DistinctFrom(from.head, from.nodes, last);
      assert Linked(from.head, from.nodes, 0) && Linked(from.head, from.nodes, last + 1);
      assert Linked(head, nodes, 0);
      var tempNext := from.head.next;
      if tempNext != from.head {
        tempNext.prev := head;
        head.next := tempNext;
      }
      var tempPrev := from.head.prev;
      if tempPrev != from.head {
        tempPrev.next := head;
        head.prev := tempPrev;
      }
      from.head.prev := from.head;
      from.head.next := from.head;
      nodes := from.nodes;
      from.nodes := [];
      forall i | 0 <= i <= |nodes|
        ensures Linked(head, nodes, i)
      {
        assert old(Linked(from.head, from.nodes, i));
      }
    }

    /** The remove-and-free loop over a whole list: every entry is unlinked once. */
    method Clear() returns (count: nat)
      requires Valid()
      modifies `nodes, head`next, head`prev, nodes`next, nodes`prev
      ensures Valid() && nodes == []
      ensures count == |old(nodes)|
    {
      hide *;
      ghost var all := nodes;
      AtIs(0);
      AtIs(1);
      var current := head.next;
      var next := current.next;
      count := 0;
      WalkStart(all);
      while current != head
        invariant Valid() && count <= |all| && Walk(nodes, 0, all, count)
        invariant current == At(head, nodes, 0)
        invariant nodes != [] ==> next == At(head, nodes, 1)
        decreases |all| - count
      {
        AtIs(0);
        AtIs(1);
        WalkKeep(nodes, 0, all, count);
        WalkDrop(nodes, 0, all, count);
        WalkWithin(nodes, 0, all, count);
        Remove(current, 0);
        count := count + 1;
        AtIs(0);
        AtIs(1);
        current := next;
        next := next.next;
      }
      AtIs(0);
      WalkWithin(nodes, 0, all, count);
    }

    method Count() returns (count: nat)
      requires Valid()
      ensures count == |nodes|
    {
      AtIs(0);
      var current := head.next;
      count := 0;
      while head != current
        invariant count <= |nodes| && current == At(head, nodes, count)
        decreases |nodes| - count
      {
        AtIs(count + 1);
        current := current.next;
        count := count + 1;
      }
    }
  }
}
