/** The null-terminated singly linked lists of the memory caches. A node carries what the C
    struct beside its `next` field holds. */
module Chains {

  class ChainNode<T> {
    var next: ChainNode?<T>
    var item: T

    constructor (item: T)
      ensures next == null && this.item == item
    {
      next := null;
      this.item := item;
    }
  }

  /** `nodes`, in order, are the list that starts at `first`. */
  ghost predicate Chain<T>(first: ChainNode?<T>, nodes: seq<ChainNode<T>>)
    reads nodes`next
  {
    && first == Nth(nodes, 0)
    && forall i :: 0 <= i < |nodes| ==> nodes[i].next == Nth(nodes, i + 1)
  }

  ghost function Nth<T>(nodes: seq<ChainNode<T>>, i: nat): ChainNode?<T> {
    if i < |nodes| then nodes[i] else null
  }

  /** No node occurs twice on a null-terminated list. */
  lemma {:induction false} ChainDistinct<T>(first: ChainNode?<T>, nodes: seq<ChainNode<T>>, i: nat, j: nat)
    requires Chain(first, nodes) && i < j < |nodes|
    ensures nodes[i] != nodes[j]
    decreases |nodes| - j
  {
    if nodes[i] == nodes[j] {
      assert nodes[i].next == Nth(nodes, i + 1) && nodes[j].next == Nth(nodes, j + 1);
      if j + 1 < |nodes| {
        ChainDistinct(first, nodes, i + 1, j + 1);
      }
    }
  }

  lemma NodeAt<T>(first: ChainNode?<T>, nodes: seq<ChainNode<T>>, i: nat)
    requires Chain(first, nodes) && i < |nodes|
    ensures nodes[i].next == Nth(nodes, i + 1) && forall j :: 0 <= j < i ==> nodes[j] != nodes[i]
  {
    forall j | 0 <= j < i
      ensures nodes[j] != nodes[i]
    {
      ChainDistinct(first, nodes, j, i);
    }
  }

  /** A list that is cut off before position `i`. */
  lemma CutAt<T>(first: ChainNode?<T>, nodes: seq<ChainNode<T>>, i: nat)
    requires i <= |nodes| && first == if i == 0 then null else nodes[0]
    requires forall j :: 0 <= j < i - 1 ==> nodes[j].next == nodes[j + 1]
    requires i > 0 ==> nodes[i - 1].next == null
    ensures Chain(first, nodes[..i])
  {
    var cut := nodes[..i];
    forall j | 0 <= j < |cut|
      ensures cut[j].next == Nth(cut, j + 1)
    {
      if j + 1 < i {
        assert nodes[j].next == nodes[j + 1] == cut[j + 1];
      }
    }
  }

  ghost function ItemsOf<T>(nodes: seq<ChainNode<T>>): (items: seq<T>)
    reads nodes`item
    ensures |items| == |nodes| && forall i :: 0 <= i < |nodes| ==> items[i] == nodes[i].item
  {
    if nodes == [] then []
    else ItemsOf(nodes[..|nodes| - 1]) + [nodes[|nodes| - 1].item]
  }
}
