/** How a node keeps the neighbours of its four layers in one array, and which slots a search has seen. */
module HnswLayers {
  import opened HnswArena

  /** Where the neighbours of a layer begin. */
  function LayerStart(layer: nat): nat {
    if layer == 0 then 0 else if layer == 1 then 32 else if layer == 2 then 48 else 64
  }

  /** How many neighbours a node may have on a layer. */
  function LayerCap(m: nat, m0: nat, layer: nat): nat {
    if layer == 0 then m0 else m
  }

  /** Entry `i` of layer `a` and entry `j` of layer `b` are stored apart, and inside the array. */
  ghost predicate StoredApart(m: nat, m0: nat, a: nat, b: nat, i: nat, j: nat) {
    a < HNSW_MAX_LAYERS && b < HNSW_MAX_LAYERS && i < LayerCap(m, m0, a) && j < LayerCap(m, m0, b) ==>
      && LayerStart(a) + i < HNSW_NEIGHBOR_SLOTS
      && (LayerStart(a) + i == LayerStart(b) + j ==> a == b && i == j)
  }

  /** The layers of a node never overwrite each other exactly for these connection limits. */
  lemma LayersApart(m: nat, m0: nat)
    requires m > 0
    ensures (forall a, b, i, j :: StoredApart(m, m0, a, b, i, j)) <==> m <= 16 && m0 <= 32
  {
    if m > 16 { assert !StoredApart(m, m0, 1, 2, 16, 0); }
    if m0 > 32 { assert !StoredApart(m, m0, 0, 1, 32, 0); }
  }

  /** The handles of a node's neighbours on one layer. */
  function Neighbors(n: HNode, layer: nat): seq<Handle>
    requires layer < HNSW_MAX_LAYERS && NodeOK(n, 16, 32)
    ensures |Neighbors(n, layer)| == n.num[layer]
  {
    n.handles[LayerStart(layer)..LayerStart(layer) + n.num[layer]]
  }

  /** Every layer of the node is within its limit. */
  predicate NodeOK(n: HNode, m: nat, m0: nat) {
    && |n.num| == HNSW_MAX_LAYERS && |n.handles| == HNSW_NEIGHBOR_SLOTS
    && forall l :: 0 <= l < HNSW_MAX_LAYERS ==> n.num[l] <= LayerCap(m, m0, l)
  }

  // ---------- Changing the links of one layer ----------

  function WithNum(n: HNode, layer: nat, k: nat): HNode
    requires layer < |n.num|
  {
    n.(num := n.num[layer := k])
  }

  function WithNeighbor(n: HNode, layer: nat, i: nat, h: Handle): HNode
    requires LayerStart(layer) + i < |n.handles|
  {
    n.(handles := n.handles[LayerStart(layer) + i := h])
  }

  /** Handle `i` of a layer. */
  function Link(n: HNode, layer: nat, i: nat): Handle
    requires LayerStart(layer) + i < |n.handles|
  {
    n.handles[LayerStart(layer) + i]
  }

  /** The node is within its limits, and each of its links is honest but perhaps those of layer `lc`
      from `i` up to `k`: it names a live node, or a freed one and does not resolve any more. */
  ghost predicate NodeBut(n: HNode, m: nat, m0: nat, a: Slots, lc: nat, i: nat, k: nat)
    requires m <= 16 && m0 <= 32
  {
    && NodeOK(n, m, m0)
    && forall l, j :: 0 <= l < HNSW_MAX_LAYERS && 0 <= j < n.num[l] && !(l == lc && i <= j < k) ==> Honest(a, Link(n, l, j))
  }

  /** All links of the node are honest. */
  ghost predicate NodeGood(n: HNode, m: nat, m0: nat, a: Slots)
    requires m <= 16 && m0 <= 32
  {
    NodeBut(n, m, m0, a, 0, 0, 0)
  }

  lemma ButNothing(n: HNode, m: nat, m0: nat, a: Slots, lc: nat, i: nat)
    requires m <= 16 && m0 <= 32
    ensures NodeBut(n, m, m0, a, lc, i, i) <==> NodeGood(n, m, m0, a)
  {
    hide Honest;
  }

  /** Announcing `k` links before they are written leaves those links open. */
  lemma NumBut(n: HNode, m: nat, m0: nat, a: Slots, lc: nat, k: nat)
    requires m <= 16 && m0 <= 32 && NodeGood(n, m, m0, a) && lc < HNSW_MAX_LAYERS && k <= LayerCap(m, m0, lc)
    ensures NodeBut(WithNum(n, lc, k), m, m0, a, lc, 0, k)
  {
    hide Honest;
    var r := WithNum(n, lc, k);
    forall l, j | 0 <= l < HNSW_MAX_LAYERS && 0 <= j < r.num[l] && !(l == lc && 0 <= j < k) ensures Honest(a, Link(r, l, j)) {
      assert Link(r, l, j) == Link(n, l, j);
    }
  }

  /** Writing the next link closes it; no other link of the node changes. */
  lemma NeighborBut(n: HNode, m: nat, m0: nat, a: Slots, lc: nat, i: nat, k: nat, h: Handle)
    requires m <= 16 && m0 <= 32 && NodeBut(n, m, m0, a, lc, i, k) && lc < HNSW_MAX_LAYERS && i < LayerCap(m, m0, lc) && Live(a, h)
    ensures LayerStart(lc) + i < HNSW_NEIGHBOR_SLOTS && NodeBut(WithNeighbor(n, lc, i, h), m, m0, a, lc, i + 1, k)
    ensures forall l, j :: 0 <= l < HNSW_MAX_LAYERS && 0 <= j < LayerCap(m, m0, l) && !(l == lc && j == i) ==>
              Link(WithNeighbor(n, lc, i, h), l, j) == Link(n, l, j)
  {
    hide Honest;
    LiveHonest(a, h);
    var r := WithNeighbor(n, lc, i, h);
    forall l, j | 0 <= l < HNSW_MAX_LAYERS && 0 <= j < r.num[l] && !(l == lc && i + 1 <= j < k) ensures Honest(a, Link(r, l, j)) {
      if l == lc && j == i { assert Link(r, l, j) == h; } else { assert Link(r, l, j) == Link(n, l, j); }
    }
  }

  /** One link more, at the end of its layer. */
  lemma LinkMore(n: HNode, m: nat, m0: nat, a: Slots, lc: nat, h: Handle, bc: nat, bi: nat, bk: nat)
    requires m <= 16 && m0 <= 32 && NodeBut(n, m, m0, a, bc, bi, bk) && lc < HNSW_MAX_LAYERS && Live(a, h)
    requires n.num[lc] < LayerCap(m, m0, lc)
    ensures LayerStart(lc) + n.num[lc] < HNSW_NEIGHBOR_SLOTS
    ensures NodeBut(WithNum(WithNeighbor(n, lc, n.num[lc], h), lc, n.num[lc] + 1), m, m0, a, bc, bi, bk)
  {
    hide Honest;
    LiveHonest(a, h);
    var k := n.num[lc];
    var r := WithNum(WithNeighbor(n, lc, k, h), lc, k + 1);
    forall l, j | 0 <= l < HNSW_MAX_LAYERS && 0 <= j < r.num[l] && !(l == bc && bi <= j < bk) ensures Honest(a, Link(r, l, j)) {
      if l == lc && j == k { assert Link(r, l, j) == h; } else { assert Link(r, l, j) == Link(n, l, j); }
    }
  }

  /** The slots a search has seen: a stamp per slot, and the stamp of the current search. */
  class Visited {
    const stamps: array<int>
    var current: int

    ghost predicate Valid()
      reads this, stamps
    {
      0 <= current <= INT32_MAX && forall i :: 0 <= i < stamps.Length ==> 0 <= stamps[i] <= current
    }

    ghost function Marked(): set<nat>
      reads this, stamps
    {
      set i: nat | i < stamps.Length && stamps[i] == current
    }

    /** Stamps and the current one are 0: before its first clear a set has every slot marked. */
    constructor (capacity: nat)
      requires capacity > 0
      ensures Valid() && fresh(stamps) && stamps.Length == capacity && forall s :: 0 <= s < capacity ==> s in Marked()
    {
      stamps := new int[capacity](_ => 0);
      current := 0;
    }

    /** A new search has seen nothing, also when the stamp would leave 32 bits. */
    method Clear()
      requires Valid()
      modifies this`current, stamps
      ensures Valid() && Marked() == {} && current == if old(current) == 0x7FFF_FFFF then 1 else old(current) + 1
    {
      if current == INT32_MAX {
        var i := 0;
        while i < stamps.Length
          invariant 0 <= i <= stamps.Length && current == INT32_MAX
          invariant forall j :: 0 <= j < stamps.Length ==> 0 <= stamps[j] <= current
          invariant forall j :: 0 <= j < i ==> stamps[j] == 0
        {
          stamps[i] := 0;
          i := i + 1;
        }
        current := 1;
      } else {
        current := current + 1;
      }
    }

    method Mark(slot: nat)
      requires Valid() && slot < stamps.Length
      modifies stamps
      ensures Valid() && Marked() == old(Marked()) + {slot}
    {
      stamps[slot] := current;
    }

    method Check(slot: nat) returns (r: bool)
      requires Valid() && slot < stamps.Length
      ensures r <==> slot in Marked()
    {
      r := stamps[slot] == current;
    }
  }
}
