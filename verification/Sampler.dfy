/** One round of the sampler thread over the rings of all registered cores. */
module Sampler {
  import opened Chains
  import opened PerfModel
  import opened PerfRing

  /** The list of cores: node `i` holds ring `i`, and no two rings share a buffer. */
  ghost predicate Cores(first: ChainNode?<SamplerRing>, nodes: seq<ChainNode<SamplerRing>>, rings: seq<SamplerRing>)
    reads nodes
  {
    && Chain(first, nodes) && |nodes| == |rings|
    && (forall i :: 0 <= i < |rings| ==> nodes[i].item == rings[i])
    && (forall i, j :: 0 <= i < j < |rings| ==> rings[i] != rings[j] && rings[i].data != rings[j].data)
  }

  function Buffers(rings: seq<SamplerRing>): set<array<byte>> {
    set i | 0 <= i < |rings| :: rings[i].data
  }

  /** A ring has gone through an interleaving of its own, with at most 50000 rounds, and fewer only
      if nothing was left to read or the last one exited. */
  ghost predicate Served(ring: SamplerRing, start: Ring, acts: seq<Action>, exited: bool)
    requires Inv(start)
    reads ring, ring.data
  {
    && ring.Valid() && ring.Abs(exited) == Exec(start, acts)
    && Polls(acts) <= 50000 && (!exited && Polls(acts) < 50000 ==> ring.consumed == |ring.produced|)
  }

  /** A ring that has not been reached. */
  ghost predicate Waiting(ring: SamplerRing, start: Ring)
    reads ring, ring.data
  {
    ring.Valid() && ring.Abs(false) == start
  }

  lemma ServedIs(ring: SamplerRing, start: Ring, acts: seq<Action>, exited: bool)
    requires Inv(start) && ring.Valid() && ring.Abs(exited) == Exec(start, acts)
    requires Polls(acts) <= 50000 && (!exited && Polls(acts) < 50000 ==> ring.consumed == |ring.produced|)
    ensures Served(ring, start, acts, exited)
  {
  }

  lemma WaitingIs(ring: SamplerRing, start: Ring)
    requires Waiting(ring, start)
    ensures ring.Valid() && ring.Abs(false) == start
  {
  }

  /** `sampler_worker_iteration`: every ring goes from its state in `starts` through some
      interleaving of kernel writes and rounds of its own, in list order, until nothing is left to
      read or its rounds are used up; an exit leaves the later rings alone. */
  method WorkerIteration(first: ChainNode?<SamplerRing>, ghost nodes: seq<ChainNode<SamplerRing>>,
                         ghost rings: seq<SamplerRing>, ghost starts: seq<Ring>)
    returns (exited: bool, ghost acts: seq<seq<Action>>)
    requires Cores(first, nodes, rings) && |starts| == |rings|
    requires forall i :: 0 <= i < |rings| ==> Inv(starts[i]) && Waiting(rings[i], starts[i])
    modifies rings, Buffers(rings)
    ensures if exited then 0 < |acts| <= |rings| else |acts| == |rings|
    ensures forall i :: 0 <= i < |acts| ==> Served(rings[i], starts[i], acts[i], exited && i == |acts| - 1)
    ensures forall i :: |acts| <= i < |rings| ==> Waiting(rings[i], starts[i])
  {
    hide *;
    acts := [];
    var current := first;
    CoresAt(first, nodes, rings, 0);
    while current != null
      invariant Cores(first, nodes, rings) && |acts| <= |rings| && current == Nth(nodes, |acts|)
      invariant forall i :: 0 <= i < |acts| ==> Served(rings[i], starts[i], acts[i], false)
      invariant forall i :: |acts| <= i < |rings| ==> Waiting(rings[i], starts[i])
      decreases |rings| - |acts|
    {
      ghost var k := |acts|;
      CoresAt(first, nodes, rings, k);
      WaitingIs(rings[k], starts[k]);
      ghost var mine;
      exited, mine := current.item.IterationCore();
      ServedIs(rings[k], starts[k], mine, exited);
      acts := acts + [mine];
      if exited {
        return;
      }
      CoresAt(first, nodes, rings, k + 1);
      current := current.next;
    }
    CoresAt(first, nodes, rings, |acts|);
    exited := false;
  }

  lemma CoresAt(first: ChainNode?<SamplerRing>, nodes: seq<ChainNode<SamplerRing>>, rings: seq<SamplerRing>, k: nat)
    requires Cores(first, nodes, rings)
    ensures |nodes| == |rings| && first == Nth(nodes, 0)
    ensures k < |rings| ==> Nth(nodes, k) == nodes[k] && nodes[k].item == rings[k] && nodes[k].next == Nth(nodes, k + 1)
    ensures k >= |rings| ==> Nth(nodes, k) == null
    ensures k < |rings| ==> rings[k] in rings && rings[k].data in Buffers(rings)
    ensures forall i :: 0 <= i < |rings| && k < |rings| && i != k ==>
            rings[i] != rings[k] && rings[i].data != rings[k].data
  {
  }
}
