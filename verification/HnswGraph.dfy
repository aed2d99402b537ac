/** Inserting a vector into the layered graph: search each layer, choose neighbours, link both ways,
    and shrink whoever has too many. Every node stays within its connection limits. */
module HnswGraph {
  import opened Options
  import opened HnswArena
  import opened HnswQueue
  import opened HnswSelect
  import opened HnswLayers
  import opened HnswSearch
  import opened HnswWiring

  /** All nodes are within their limits and all links are honest, but for links `i` up to `k` of layer `lc` of node `s0`. */
  ghost predicate NodesBut(a: Slots, nodes: seq<HNode>, m: nat, m0: nat, s0: nat, lc: nat, i: nat, k: nat)
    requires m <= 16 && m0 <= 32
  {
    |a.gens| == |nodes| && forall s :: 0 <= s < |nodes| ==> NodeBut(nodes[s], m, m0, a, lc, i, if s == s0 then k else i)
  }

  ghost predicate NodesGood(a: Slots, nodes: seq<HNode>, m: nat, m0: nat)
    requires m <= 16 && m0 <= 32
  {
    |a.gens| == |nodes| && forall s :: 0 <= s < |nodes| ==> NodeGood(nodes[s], m, m0, a)
  }

  lemma GoodIsBut(a: Slots, nodes: seq<HNode>, m: nat, m0: nat, s0: nat, lc: nat, i: nat)
    requires m <= 16 && m0 <= 32
    ensures NodesBut(a, nodes, m, m0, s0, lc, i, i) <==> NodesGood(a, nodes, m, m0)
  {
    hide NodeBut, NodeGood;
    forall s | 0 <= s < |nodes| ensures NodeBut(nodes[s], m, m0, a, lc, i, i) <==> NodeGood(nodes[s], m, m0, a) {
      ButNothing(nodes[s], m, m0, a, lc, i);
    }
  }

  /** One node is replaced by another that is as good. */
  lemma NodesPut(a: Slots, nodes: seq<HNode>, m: nat, m0: nat, s0: nat, lc: nat, i: nat, k: nat, s: nat, n: HNode)
    requires m <= 16 && m0 <= 32 && NodesBut(a, nodes, m, m0, s0, lc, i, k) && s < |nodes|
    requires NodeBut(n, m, m0, a, lc, i, if s == s0 then k else i)
    ensures NodesBut(a, nodes[s := n], m, m0, s0, lc, i, k)
  {
    hide NodeBut;
  }

  /** Such a graph can be searched on every layer, and every link of it is honest. */
  lemma GoodGraph(w: World, a: Slots, m: nat, m0: nat, layer: nat)
    requires m <= 16 && m0 <= 32 && a.gens == w.gens && NodesGood(a, w.nodes, m, m0) && layer < HNSW_MAX_LAYERS
    ensures GraphOK(w) && HonestLinks(a, w.nodes, layer)
  {
    hide NodeGood, Honest;
    forall s | 0 <= s < |w.nodes| ensures LinksOK(w, s)
        && forall i :: 0 <= i < |LinksOn(w.nodes[s], layer)| ==> Honest(a, LinksOn(w.nodes[s], layer)[i]) {
      GoodLinks(w, a, m, m0, s, layer);
    }
  }

  lemma GoodLinks(w: World, a: Slots, m: nat, m0: nat, s: nat, layer: nat)
    requires m <= 16 && m0 <= 32 && s < |w.nodes| == |w.gens| && a.gens == w.gens && NodeGood(w.nodes[s], m, m0, a) && layer < HNSW_MAX_LAYERS
    ensures LinksOK(w, s)
    ensures forall i :: 0 <= i < |LinksOn(w.nodes[s], layer)| ==> Honest(a, LinksOn(w.nodes[s], layer)[i])
  {
    var n := w.nodes[s];
    forall l, i | 0 <= l < HNSW_MAX_LAYERS && 0 <= i < n.num[l] ensures Honest(a, Neighbors(n, l)[i]) {
      assert Honest(a, Link(n, l, i)) && Neighbors(n, l)[i] == Link(n, l, i);
    }
  }

  ghost predicate AllLive(a: Slots, hs: seq<Cand>) {
    forall i :: 0 <= i < |hs| ==> Live(a, HandleOf(hs[i]))
  }

  lemma SelectedFew(w: World, all: multiset<Cand>, out: seq<Cand>, m: nat, items: seq<Cand>)
    requires Selected(w, all, out, m) && multiset(items) == multiset(out)
    ensures |items| <= m && forall i :: 0 <= i < |items| ==> items[i] in all
  {
    SameSize(items, out);
    forall i | 0 <= i < |items| ensures items[i] in all {
      assert items[i] in multiset(items);
    }
  }

  /** Whoever comes out of the competition is a live neighbour or the new node. */
  lemma RivalsLive(w: World, a: Slots, m: nat, m0: nat, node: nat, lc: nat, h: Handle, out: seq<Cand>, limit: nat, items: seq<Cand>)
    requires m <= 16 && m0 <= 32 && node < |w.nodes| && NodeGood(w.nodes[node], m, m0, a) && lc < HNSW_MAX_LAYERS && Live(a, h) && a.gens == w.gens
    requires Selected(w, Rivalry(w, node, lc, h), out, limit) && multiset(items) == multiset(out)
    ensures |items| <= limit && AllLive(a, items)
  {
    hide Selected, Live, Honest, CandsAt;
    SelectedFew(w, Rivalry(w, node, lc, h), out, limit, items);
    var n := w.nodes[node];
    var hs := LinksOn(n, lc) + [h];
    forall i | 0 <= i < |items| ensures Live(a, HandleOf(items[i])) {
      CandsIn(w, node, hs, items[i]);
      var x :| 0 <= x < |hs| && hs[x] == HandleOf(items[i]);
      LiveHonest(a, hs[x]);
      if x < |hs| - 1 { assert Honest(a, Link(n, lc, x)) && hs[x] == Link(n, lc, x); }
    }
  }

  /** The nodes with the new one in its slot, not linked yet. */
  function Added(nodes: seq<HNode>, slot: nat, vec: int, top: nat): seq<HNode>
    requires slot < |nodes|
  {
    nodes[slot := ZeroNode().(vec := vec).(layer := top)]
  }

  /** Up to which layer a new node is linked. */
  function Low(top: nat, maxLayer: nat): nat {
    if top < maxLayer then top else maxLayer
  }

  class Graph {
    const arena: Arena
    const dist: (int, int) -> real
    const m: nat
    const m0: nat
    const efConst: nat
    var ep: Option<Handle>
    var maxLayer: nat

    ghost predicate Valid()
      reads this, arena, arena.nodes, arena.gens, arena.freeBuf
    {
      && arena.Valid() && 0 < m <= 16 && 0 < m0 <= 32 && 0 < efConst && maxLayer < HNSW_MAX_LAYERS
      && NodesGood(arena.View(), arena.nodes[..], m, m0)
      && (ep.Some? ==> Live(arena.View(), ep.value))
    }

    /** A graph over a new arena. The connection limits are those for which layers do not overlap. */
    constructor (capacity: nat, m: nat, m0: nat, efConst: nat, dist: (int, int) -> real)
      requires capacity >= 1 && 0 < m <= 16 && 0 < m0 <= 32 && efConst > 0
      ensures Valid() && fresh(arena) && fresh(arena.nodes) && fresh(arena.gens) && fresh(arena.freeBuf)
      ensures arena.capacity == capacity && ep == None && maxLayer == 0 && this.m == m && this.m0 == m0 && this.efConst == efConst && this.dist == dist
    {
      var a := new Arena(capacity);
      arena, this.dist, this.m, this.m0, this.efConst := a, dist, m, m0, efConst;
      ep, maxLayer := None, 0;
      new;
      forall s | 0 <= s < capacity ensures NodeGood(arena.nodes[s], m, m0, arena.View()) { ZeroGood(m, m0, arena.View()); }
    }

    function LayerLimit(lc: nat): nat {
      LayerCap(m, m0, lc)
    }

    /** All neighbours of the node and the new one compete for its places on the layer. */
    method ShrinkConnections(node: nat, layer: nat, h: Handle, ghost s0: nat, ghost i: nat, ghost k: nat)
      requires arena.Valid() && 0 < m <= 16 && 0 < m0 <= 32 && layer < HNSW_MAX_LAYERS && node < arena.capacity && node != s0
      requires NodesBut(arena.View(), arena.nodes[..], m, m0, s0, layer, i, k) && Live(arena.View(), h)
      modifies arena.nodes
      ensures NodesBut(arena.View(), arena.nodes[..], m, m0, s0, layer, i, k)
      ensures arena.nodes[..] == old(arena.nodes[..])[node := arena.nodes[node]]
      ensures OthersKept(old(arena.nodes[node]), arena.nodes[node], layer)
      ensures arena.nodes[node].vec == old(arena.nodes[node]).vec && arena.nodes[node].layer == old(arena.nodes[node]).layer
      ensures var w := old(Seen(arena, dist)); ChosenLinks(w, Rivalry(w, node, layer, h), LayerLimit(layer), LinksOn(arena.nodes[node], layer))
    {
      hide NodesBut, NodeBut, NodeGood, SlotsOK, Live, Selected, Heap, Valid, Relinked, ChosenLinks, Rivalry, OthersKept, LinksOn;
      var limit := LayerLimit(layer);
      LimitPositive(m, m0, layer);
      ghost var w, was := Seen(arena, dist), arena.nodes[node];
      NodeWhole(arena.View(), arena.nodes[..], m, m0, s0, layer, i, k, node);
      NodeIs(arena.View(), arena.nodes[..], m, m0, s0, layer, i, k, node);
      var cands := Rivals(node, layer, h, s0, i, k);
      ghost var out;
      var chosen;
      chosen, out := SelectNeighbors(arena, dist, cands, limit);
      RivalsLive(w, arena.View(), m, m0, node, layer, h, out, limit, chosen.Items());
      ghost var items := chosen.Items();
      ChosenIs(w, Rivalry(w, node, layer, h), limit, out, items);
      Relink(node, layer, chosen, s0, i, k);
      NodeIs(arena.View(), arena.nodes[..], m, m0, s0, layer, i, k, node);
      RelinkedLinks(was, arena.nodes[node], layer, items, m, m0);
    }

    /** The resolvable neighbours of a node and the new one, by distance from the node. */
    method Rivals(node: nat, layer: nat, h: Handle, ghost s0: nat, ghost i: nat, ghost k: nat) returns (cands: Pq)
      requires arena.Valid() && 0 < m <= 16 && 0 < m0 <= 32 && layer < HNSW_MAX_LAYERS && node < arena.capacity
      requires NodesBut(arena.View(), arena.nodes[..], m, m0, s0, layer, i, k)
      ensures cands.Valid() && cands.isMax && fresh(cands) && fresh(cands.elems)
      ensures multiset(cands.Items()) == Rivalry(Seen(arena, dist), node, layer, h)
    {
      hide NodesBut, NodeBut, SlotsOK, Live, Heap, Valid, CandsAt, CandAt;
      NodeIs(arena.View(), arena.nodes[..], m, m0, s0, layer, i, k, node);
      ghost var w, hs := Seen(arena, dist), LinksOn(arena.nodes[node], layer);
      var n := arena.nodes[node];
      cands := new Pq(LayerLimit(layer) + 1, true);
      NoCands(w, node);
      var j := 0;
      while j < n.num[layer]
        invariant 0 <= j <= n.num[layer] == |hs| && cands.Valid() && fresh(cands) && fresh(cands.elems)
        invariant multiset(cands.Items()) == CandsAt(w, node, hs[..j])
      {
        var o := n.handles[LayerStart(layer) + j];
        assert o == hs[j];
        OneMoreCand(w, node, hs, j);
        TryPush(node, cands, o);
        j := j + 1;
      }
      assert hs[..j] == hs;
      LastCand(w, node, hs, h);
      TryPush(node, cands, h);
    }

    method TryPush(node: nat, cands: Pq, o: Handle)
      requires arena.Valid() && node < arena.capacity && cands.Valid() && Foreign(arena, cands.elems)
      modifies cands, cands.elems
      ensures cands.Valid() && (cands.elems == old(cands.elems) || fresh(cands.elems))
      ensures multiset(cands.Items()) == old(multiset(cands.Items())) + CandAt(Seen(arena, dist), node, o)
    {
      hide SlotsOK, Heap, Valid;
      var r := arena.GetNode(o);
      if r.Ok? {
        var c := Cand(dist(arena.nodes[node].vec, arena.nodes[r.value].vec), o.slot, o.gen);
        cands.Push(c);
      }
    }

    /** The chosen ones become the node's links on the layer, in the queue's order. */
    method Relink(node: nat, layer: nat, chosen: Pq, ghost s0: nat, ghost i: nat, ghost k: nat)
      requires arena.Valid() && 0 < m <= 16 && 0 < m0 <= 32 && layer < HNSW_MAX_LAYERS && node < arena.capacity
      requires chosen.Valid() && Foreign(arena, chosen.elems)
      requires NodesBut(arena.View(), arena.nodes[..], m, m0, s0, layer, i, k)
      requires chosen.size <= LayerLimit(layer) && AllLive(arena.View(), chosen.Items())
      modifies arena.nodes
      ensures NodesBut(arena.View(), arena.nodes[..], m, m0, s0, layer, i, k)
      ensures arena.nodes[..] == old(arena.nodes[..])[node := arena.nodes[node]]
      ensures Relinked(old(arena.nodes[node]), arena.nodes[node], layer, chosen.Items()) && chosen.Items() == old(chosen.Items())
    {
      hide NodesBut, NodeBut, SlotsOK, Live, Heap, Valid, PartLinked;
      ghost var a := arena.View();
      var size := chosen.size;
      NodeIs(a, arena.nodes[..], m, m0, s0, layer, i, k, node);
      ghost var e := if node == s0 then k else i;
      ghost var was := arena.nodes[node];
      arena.nodes[node] := WithNum(arena.nodes[node], layer, chosen.size);
      RelinkStart(was, m, m0, a, layer, i, e, size);
      PartStart(was, layer, chosen.Items());
      var j := 0;
      while j < size
        invariant 0 <= j <= size && size == chosen.size && chosen.Valid() && chosen.Items() == old(chosen.Items())
        invariant RelinkBut(arena.nodes[node], m, m0, a, layer, j, size)
        invariant PartLinked(was, arena.nodes[node], layer, chosen.Items(), j)
        invariant forall s :: 0 <= s < arena.nodes.Length && s != node ==> arena.nodes[s] == old(arena.nodes[s])
      {
        var c := chosen.elems[j];
        assert c == chosen.Items()[j];
        PartMore(was, arena.nodes[node], layer, chosen.Items(), j);
        RelinkOne(arena.nodes[node], m, m0, a, layer, j, size, Handle(c.slot, c.gen));
        arena.nodes[node] := WithNeighbor(arena.nodes[node], layer, j, Handle(c.slot, c.gen));
        j := j + 1;
      }
      RelinkEnd(arena.nodes[node], m, m0, a, layer, i, e, size);
      PartAll(was, arena.nodes[node], layer, chosen.Items());
      NodesPut(a, old(arena.nodes[..]), m, m0, s0, layer, i, k, node, arena.nodes[node]);
      assert arena.nodes[..] == old(arena.nodes[..])[node := arena.nodes[node]];
    }

    /** The way back: the new node joins the neighbour's links, or competes for a place when they are full. */
    method LinkBack(o: Handle, lc: nat, h: Handle, ghost s0: nat, ghost i: nat, ghost k: nat)
      requires arena.Valid() && 0 < m <= 16 && 0 < m0 <= 32 && lc < HNSW_MAX_LAYERS && o.slot != s0
      requires NodesBut(arena.View(), arena.nodes[..], m, m0, s0, lc, i, k) && Live(arena.View(), h)
      modifies arena.nodes
      ensures NodesBut(arena.View(), arena.nodes[..], m, m0, s0, lc, i, k)
      ensures !Resolves(arena.gens[..], o) ==> arena.nodes[..] == old(arena.nodes[..])
      ensures Resolves(arena.gens[..], o) ==>
                var n, r := old(arena.nodes[..])[o.slot], arena.nodes[o.slot];
                && arena.nodes[..] == old(arena.nodes[..])[o.slot := r] && OthersKept(n, r, lc) && r.vec == n.vec && r.layer == n.layer
                && LinkedBack(old(Seen(arena, dist)), o.slot, lc, h, LayerLimit(lc), LinksOn(r, lc))
    {
      hide NodesBut, NodeBut, SlotsOK, Valid, ChosenLinks, Rivalry, OthersKept, LinksOn, Live;
      var r := arena.GetNode(o);
      if r.Ok? {
        ghost var a, nodes := arena.View(), arena.nodes[..];
        NodeIs(a, nodes, m, m0, s0, lc, i, k, r.value);
        LinkCount(arena.nodes[r.value], lc);
        var n := arena.nodes[r.value];
        if n.num[lc] < LayerLimit(lc) {
          LinkMore(n, m, m0, a, lc, h, lc, i, i);
          MoreLinks(n, lc, h, m, m0);
          arena.nodes[r.value] := WithNeighbor(arena.nodes[r.value], lc, n.num[lc], h);
          arena.nodes[r.value] := WithNum(arena.nodes[r.value], lc, n.num[lc] + 1);
          NodesPut(a, nodes, m, m0, s0, lc, i, k, r.value, arena.nodes[r.value]);
          assert arena.nodes[..] == nodes[r.value := arena.nodes[r.value]];
        } else {
          ShrinkConnections(r.value, lc, h, s0, i, k);
        }
      }
    }

    /** The new node's links on one layer, each with its way back. */
    method Connect(h: Handle, lc: nat, chosen: Pq)
      requires arena.Valid() && 0 < m <= 16 && 0 < m0 <= 32 && lc < HNSW_MAX_LAYERS && h.slot < arena.capacity
      requires NodesGood(arena.View(), arena.nodes[..], m, m0) && Live(arena.View(), h)
      requires chosen.Valid() && Foreign(arena, chosen.elems) && chosen.size <= LayerLimit(lc) && AllLive(arena.View(), chosen.Items())
      requires OneSlotEach(chosen.Items()) && forall c :: c in chosen.Items() ==> c.slot != h.slot
      modifies arena.nodes
      ensures NodesGood(arena.View(), arena.nodes[..], m, m0) && chosen.Items() == old(chosen.Items())
      ensures Wired(old(Seen(arena, dist)), arena.nodes[..], h, lc, LayerLimit(lc), chosen.Items())
    {
      hide NodesBut, NodesGood, NodeBut, NodeGood, SlotsOK, Live, Valid, Heap, PartLinked, PartWired, LinkedBack, OneSlotEach, Wired, OthersKept, LinksOn;
      ghost var a, items, w := arena.View(), chosen.Items(), Seen(arena, dist);
      ghost var was := arena.nodes[h.slot];
      Counts(a, arena.nodes[..], m, m0, h.slot, lc);
      AllCounts(a, arena.nodes[..], m, m0);
      var size := chosen.size;
      Announce(a, arena.nodes[..], m, m0, h.slot, lc, size);
      arena.nodes[h.slot] := WithNum(arena.nodes[h.slot], lc, size);
      assert arena.nodes[..] == old(arena.nodes[..])[h.slot := arena.nodes[h.slot]];
      PartStart(was, lc, items);
      PartWiredStart(w, arena.nodes[..], h, lc, LayerLimit(lc), items);
      var i := 0;
      while i < size
        invariant 0 <= i <= size == chosen.size && chosen.Valid() && chosen.Items() == items
        invariant PartLinked(was, arena.nodes[h.slot], lc, items, i)
        invariant PartWired(w, arena.nodes[..], h, lc, LayerLimit(lc), items, i)
        invariant NodesBut(a, arena.nodes[..], m, m0, h.slot, lc, i, size)
      {
        var c := chosen.elems[i];
        assert c == items[i] && c in items && Live(a, HandleOf(items[i]));
        LiveResolves(a, HandleOf(c));
        ghost var nodes := arena.nodes[..];
        WriteOne(a, nodes, m, m0, h.slot, lc, i, size, Handle(c.slot, c.gen));
        PartMore(was, arena.nodes[h.slot], lc, items, i);
        arena.nodes[h.slot] := WithNeighbor(arena.nodes[h.slot], lc, i, Handle(c.slot, c.gen));
        assert arena.nodes[..] == nodes[h.slot := arena.nodes[h.slot]];
        SelfWrite(w, nodes, arena.nodes[h.slot], h, lc, LayerLimit(lc), items, i);
        ghost var mid := arena.nodes[..];
        LinkBack(Handle(c.slot, c.gen), lc, h, h.slot, i + 1, size);
        WireOne(w, mid, arena.nodes[c.slot], h, lc, LayerLimit(lc), items, i);
        i := i + 1;
      }
      GoodIsBut(a, arena.nodes[..], m, m0, h.slot, lc, size);
      PartAll(was, arena.nodes[h.slot], lc, items);
      AllCounts(a, arena.nodes[..], m, m0);
      RelinkedLinks(was, arena.nodes[h.slot], lc, items, m, m0);
      PartWiredEnd(w, arena.nodes[..], h, lc, LayerLimit(lc), items);
    }

    /** One layer of an insertion: search, choose, connect, and move the entry point to the nearest one chosen. */
    method InsertLayer(h: Handle, vec: int, lc: nat, entry: Handle, v: Visited)
        returns (next: Handle, ghost found: seq<Cand>, ghost near: multiset<Cand>, ghost out: seq<Cand>, ghost items: seq<Cand>)
      requires Valid() && lc < HNSW_MAX_LAYERS && Live(arena.View(), h) && Live(arena.View(), entry) && entry.slot != h.slot
      requires Unnamed(arena.nodes[..], h, lc)
      requires v.Valid() && v.stamps.Length == arena.capacity && v.stamps != arena.gens && v.stamps as object != arena.freeBuf
      modifies arena.nodes, v, v.stamps
      ensures Valid() && v.Valid() && Live(arena.View(), next) && next.slot != h.slot
      ensures GraphOK(old(Seen(arena, dist))) && found != [] && HandleOf(found[0]) == entry
      ensures Searched(old(Seen(arena, dist)), Query(vec, None, None), lc, efConst, v.Marked(), found, near)
      ensures LinksAlive(old(Seen(arena, dist)), lc) ==> Traced(found, {}, v.Marked())
      ensures Rooted(old(Seen(arena, dist)), lc, found)
      ensures Selected(old(Seen(arena, dist)), near, out, LayerLimit(lc)) && multiset(items) == multiset(out)
      ensures Wired(old(Seen(arena, dist)), arena.nodes[..], h, lc, LayerLimit(lc), items)
      ensures GoesOn(items, entry, next)
    {
      hide NodesGood, SlotsOK, Searched, Selected, Heap, GraphOK, LinksAlive, HonestLinks, Live, Traced, Rooted, Wired, Unnamed, IsNearest, OneSlotEach;
      v.Clear();
      ghost var w, a := Seen(arena, dist), arena.View();
      GoodGraph(w, a, m, m0, lc);
      LimitPositive(m, m0, lc);
      LiveResolves(a, entry);
      LiveResolves(a, h);
      var r, chosen;
      r, found := SearchLayer(arena, dist, Query(vec, None, None), Some(entry), efConst, lc, v);
      near := multiset(r.value.Items());
      chosen, out := SelectNeighbors(arena, dist, r.value, LayerLimit(lc));
      items := chosen.Items();
      ItemsFit(w, a, Query(vec, None, None), lc, efConst, v.Marked(), found, near, out, LayerLimit(lc), items, h);
      Connect(h, lc, chosen);
      next := NearestOf(chosen, entry, h.slot);
    }

    /** The nearest of the chosen, or the old entry point when there is none this near. */
    method NearestOf(chosen: Pq, entry: Handle, ghost slot: nat) returns (next: Handle)
      requires chosen.Valid() && arena.Valid() && Live(arena.View(), entry) && entry.slot != slot
      requires AllLive(arena.View(), chosen.Items()) && forall c :: c in chosen.Items() ==> c.slot != slot
      ensures Live(arena.View(), next) && next.slot != slot
      ensures GoesOn(chosen.Items(), entry, next)
    {
      hide Heap, SlotsOK, Live;
      next := entry;
      var min, at: int := FAR_AWAY, -1;
      var j := 0;
      while j < chosen.size
        invariant 0 <= j <= chosen.size && -1 <= at < j
        invariant at == -1 ==> min == FAR_AWAY
        invariant at >= 0 ==> min == chosen.Items()[at].dist < FAR_AWAY
        invariant forall x :: 0 <= x < j ==> min <= chosen.Items()[x].dist
      {
        assert chosen.Items()[j] == chosen.elems[j];
        if chosen.elems[j].dist < min {
          min, at := chosen.elems[j].dist, j;
        }
        j := j + 1;
      }
      if at != -1 {
        assert chosen.Items()[at] == chosen.elems[at];
        next := Handle(chosen.elems[at].slot, chosen.elems[at].gen);
        NearestAt(chosen.Items(), at);
      } else {
        NoneNear(chosen.Items());
      }
    }

    /** Adds a vector whose node reaches up to layer `top`. On each layer from the lower of its layer and the graph's
        downwards its links are a diverse choice from a whole beam search of the graph as it was, and each of
        those neighbours links back; no other link, and no vector, changes. Every node keeps to its limits. The searches
        start at `starts`, from the top layer down: the first at the graph's entry point, each other one where the
        layer above led to. */
    method Insert(vec: int, top: nat, v: Visited) returns (r: Result<Handle>, ghost starts: seq<Handle>)
      requires Valid() && top < HNSW_MAX_LAYERS
      requires v.Valid() && v.stamps.Length == arena.capacity && v.stamps != arena.gens && v.stamps as object != arena.freeBuf
      modifies this, arena`freeTop, arena`used, arena.nodes, v, v.stamps
      ensures Valid() && v.Valid()
      ensures r == OutOfMemory <==> old(arena.freeTop) == 0
      ensures r == OutOfMemory ==> arena.nodes[..] == old(arena.nodes[..]) && ep == old(ep)
      ensures r != OutOfMemory ==> r.Ok? && Live(arena.View(), r.value) && ep.Some? && maxLayer == (if old(ep).None? || top > old(maxLayer) then top else old(maxLayer))
      ensures r != OutOfMemory ==> ep == if old(ep).None? || top > old(maxLayer) then Some(r.value) else old(ep)
      ensures r.Ok? ==> r.value.slot < arena.capacity && !old(Live(arena.View(), r.value))
      ensures r.Ok? ==> forall s :: 0 <= s < arena.capacity ==> arena.nodes[s].vec == if s == r.value.slot then vec else old(arena.nodes[s].vec)
      ensures r.Ok? ==> forall s :: 0 <= s < arena.capacity ==> arena.nodes[s].layer == if s == r.value.slot then top else old(arena.nodes[s].layer)
      ensures r.Ok? ==>
                var w := World(arena.gens[..], Added(old(arena.nodes[..]), r.value.slot, vec, top), dist);
                && GraphOK(w) && SameVecs(w, arena.nodes[..])
                && if old(ep).None? then forall l :: 0 <= l < HNSW_MAX_LAYERS ==> LayerKept(w.nodes, arena.nodes[..], l)
                   else
                     && |starts| == old(maxLayer) + 2 && starts[0] == old(ep).value
                     && forall l :: 0 <= l < HNSW_MAX_LAYERS ==> LayerResult(w, arena.nodes[..], r.value, vec, l, top, old(maxLayer), starts)
    {
      hide NodesGood, SlotsOK, Live, LayerResult, LayerKept, GraphOK, Unnamed;
      starts := [];
      r := NewSlot(vec, top);
      if r.OutOfMemory? {
        return;
      }
      var h := r.value;
      ghost var w := Seen(arena, dist);
      GoodGraph(w, arena.View(), m, m0, 0);
      AllSame(w);
      if ep.None? {
        ep, maxLayer := Some(h), top;
        return;
      }
      starts := InsertInto(h, vec, top, v);
      if top > maxLayer {
        maxLayer := top;
        ep := Some(h);
      }
    }

    /** A slot for the new node, which no link names. */
    method NewSlot(vec: int, top: nat) returns (r: Result<Handle>)
      requires Valid()
      modifies arena`freeTop, arena`used, arena.nodes
      ensures Valid()
      ensures if old(arena.freeTop) == 0 then r == OutOfMemory && arena.nodes[..] == old(arena.nodes[..])
              else r.Ok? && Live(arena.View(), r.value) && r.value.slot < arena.capacity && !old(Live(arena.View(), r.value))
      ensures r.Ok? ==> arena.nodes[..] == Added(old(arena.nodes[..]), r.value.slot, vec, top)
      ensures r.Ok? ==> (ep.Some? ==> ep.value.slot != r.value.slot) && forall l :: 0 <= l < HNSW_MAX_LAYERS ==> Unnamed(arena.nodes[..], r.value, l)
    {
      hide NodesGood, SlotsOK, Live, Unnamed;
      ghost var a, before := arena.View(), arena.nodes[..];
      r := arena.AllocNode();
      if r.OutOfMemory? {
        return;
      }
      var h := r.value;
      NewNode(a, before, m, m0, h, vec, top);
      if ep.Some? { NewHandle(a, h, ep.value); }
      arena.nodes[h.slot] := arena.nodes[h.slot].(vec := vec);
      arena.nodes[h.slot] := arena.nodes[h.slot].(layer := top);
      assert arena.nodes[..] == Added(before, h.slot, vec, top);
    }

    /** From the top layer down: first move the entry point towards the new node, then connect layer by layer. */
    method InsertInto(h: Handle, vec: int, top: nat, v: Visited) returns (ghost starts: seq<Handle>)
      requires Valid() && top < HNSW_MAX_LAYERS && Live(arena.View(), h) && ep.Some? && ep.value.slot != h.slot
      requires forall l :: 0 <= l < HNSW_MAX_LAYERS ==> Unnamed(arena.nodes[..], h, l)
      requires v.Valid() && v.stamps.Length == arena.capacity && v.stamps != arena.gens && v.stamps as object != arena.freeBuf
      modifies arena.nodes, v, v.stamps
      ensures Valid() && v.Valid() && GraphOK(old(Seen(arena, dist))) && SameVecs(old(Seen(arena, dist)), arena.nodes[..])
      ensures |starts| == maxLayer + 2 && starts[0] == ep.value
      ensures forall l :: 0 <= l < HNSW_MAX_LAYERS ==> LayerResult(old(Seen(arena, dist)), arena.nodes[..], h, vec, l, top, maxLayer, starts)
    {
      hide NodesGood, SlotsOK, Live, LayerKept, GraphOK, Unnamed, SameVecs, StepsDown, WiresDown;
      ghost var w := Seen(arena, dist);
      GoodGraph(w, arena.View(), m, m0, 0);
      var entry;
      entry, starts := DescendTo(h, vec, top, v);
      ghost var above := starts;
      starts := WireDown(h, vec, Low(top, maxLayer), entry, v, starts);
      forall l | top < l <= maxLayer ensures StepsDown(w, vec, l, maxLayer, starts) { StepsStay(w, vec, l, maxLayer, above, starts); }
    }

    /** Down to the new node's layer. */
    method DescendTo(h: Handle, vec: int, top: nat, v: Visited) returns (entry: Handle, ghost starts: seq<Handle>)
      requires Valid() && top < HNSW_MAX_LAYERS && Live(arena.View(), h) && ep.Some? && ep.value.slot != h.slot
      requires forall l :: 0 <= l < HNSW_MAX_LAYERS ==> Unnamed(arena.nodes[..], h, l)
      requires v.Valid() && v.stamps.Length == arena.capacity && v.stamps != arena.gens && v.stamps as object != arena.freeBuf
      modifies v, v.stamps
      ensures Valid() && v.Valid() && GraphOK(Seen(arena, dist)) && Live(arena.View(), entry) && entry.slot != h.slot
      ensures |starts| == maxLayer - Low(top, maxLayer) + 1 && starts[0] == ep.value && starts[|starts| - 1] == entry
      ensures forall l :: top < l <= maxLayer ==> StepsDown(Seen(arena, dist), vec, l, maxLayer, starts)
    {
      hide NodesGood, SlotsOK, Live, Descends, GraphOK, Unnamed;
      ghost var w := Seen(arena, dist);
      GoodGraph(w, arena.View(), m, m0, 0);
      entry := ep.value;
      starts := [entry];
      var lc: int := maxLayer;
      while lc > top
        invariant Valid() && v.Valid() && Low(top, maxLayer) <= lc <= maxLayer && Live(arena.View(), entry) && entry.slot != h.slot
        invariant |starts| == maxLayer - lc + 1 && starts[0] == ep.value && starts[|starts| - 1] == entry
        invariant forall l :: lc < l <= maxLayer ==> StepsDown(w, vec, l, maxLayer, starts)
      {
        ghost var was := starts;
        entry := Descend(vec, lc, entry, v, h);
        starts := starts + [entry];
        assert Seen(arena, dist) == w;
        forall l | lc <= l <= maxLayer ensures StepsDown(w, vec, l, maxLayer, starts) {
          if l > lc { StepsStay(w, vec, l, maxLayer, was, starts); }
        }
        lc := lc - 1;
      }
    }

    /** From the new node's layer, or the graph's top one, down to layer 0. */
    method WireDown(h: Handle, vec: int, low: nat, first: Handle, v: Visited, ghost above: seq<Handle>) returns (ghost starts: seq<Handle>)
      requires Valid() && low <= maxLayer && Live(arena.View(), h) && Live(arena.View(), first) && first.slot != h.slot
      requires forall l :: 0 <= l < HNSW_MAX_LAYERS ==> Unnamed(arena.nodes[..], h, l)
      requires |above| == maxLayer - low + 1 && above[|above| - 1] == first
      requires v.Valid() && v.stamps.Length == arena.capacity && v.stamps != arena.gens && v.stamps as object != arena.freeBuf
      modifies arena.nodes, v, v.stamps
      ensures Valid() && v.Valid() && GraphOK(old(Seen(arena, dist))) && SameVecs(old(Seen(arena, dist)), arena.nodes[..])
      ensures |starts| == maxLayer + 2 && above <= starts
      ensures forall l :: 0 <= l <= low ==> WiresDown(old(Seen(arena, dist)), arena.nodes[..], h, vec, l, maxLayer, starts)
      ensures forall l :: low < l < HNSW_MAX_LAYERS ==> LayerKept(old(arena.nodes[..]), arena.nodes[..], l)
    {
      hide NodesGood, SlotsOK, Live, LayerDone, LayerKept, GraphOK, Unnamed, SameVecs, GoesOn, Traced, Rooted, Searched, Selected, Wired, LinksAlive, WiresDown;
      ghost var w := Seen(arena, dist);
      GoodGraph(w, arena.View(), m, m0, 0);
      starts := above;
      var entry, lc: int := first, low;
      AllSame(w);
      while lc >= 0
        invariant Valid() && v.Valid() && -1 <= lc <= low && Live(arena.View(), entry) && entry.slot != h.slot
        invariant |arena.nodes[..]| == |w.nodes| && SameVecs(w, arena.nodes[..])
        invariant |starts| == maxLayer - lc + 1 && above <= starts && starts[|starts| - 1] == entry
        invariant forall l :: lc < l <= low ==> WiresDown(w, arena.nodes[..], h, vec, l, maxLayer, starts)
        invariant forall l :: 0 <= l < HNSW_MAX_LAYERS && !(lc < l <= low) ==> LayerKept(w.nodes, arena.nodes[..], l)
      {
        ghost var before, from, was := arena.nodes[..], entry, starts;
        UnnamedKept(w.nodes, before, h, lc);
        ghost var found, near, out, items;
        entry, found, near, out, items := InsertLayer(h, vec, lc, entry, v);
        starts := starts + [entry];
        LayerFrom(w, before, arena.nodes[..], h, vec, lc, efConst, LayerLimit(lc), from, entry, v.Marked(), found, near, out, items);
        WiresHere(w, arena.nodes[..], h, vec, lc, maxLayer, was, entry);
        forall l | 0 <= l < HNSW_MAX_LAYERS && l != lc
            ensures if lc < l <= low then WiresDown(w, arena.nodes[..], h, vec, l, maxLayer, starts) else LayerKept(w.nodes, arena.nodes[..], l) {
          WiredKeeps(World(w.gens, before, w.dist), arena.nodes[..], h, lc, LayerLimit(lc), items, l);
          if lc < l <= low {
            WiresStay(w, before, arena.nodes[..], h, vec, l, maxLayer, was, entry);
          } else {
            KeptOn(w.nodes, before, arena.nodes[..], l);
          }
        }
        lc := lc - 1;
      }
    }

    /** Layer `l` was passed on the way down, from its place in `starts` to the next one. */
    ghost predicate StepsDown(w: World, vec: int, l: nat, maxLayer: nat, starts: seq<Handle>)
      requires GraphOK(w)
    {
      l < HNSW_MAX_LAYERS && l <= maxLayer && maxLayer - l + 1 < |starts| && Descends(w, vec, l, starts[maxLayer - l], starts[maxLayer - l + 1])
    }

    /** Layer `l` was wired. */
    ghost predicate WiresDown(w: World, nodes: seq<HNode>, h: Handle, vec: int, l: nat, maxLayer: nat, starts: seq<Handle>)
      requires GraphOK(w)
    {
      && l < HNSW_MAX_LAYERS && l <= maxLayer && maxLayer - l + 1 < |starts|
      && LayerDone(w, nodes, h, vec, l, efConst, if l == 0 then m0 else m, starts[maxLayer - l], starts[maxLayer - l + 1])
    }

    lemma StepsStay(w: World, vec: int, l: nat, maxLayer: nat, a: seq<Handle>, b: seq<Handle>)
      requires GraphOK(w) && StepsDown(w, vec, l, maxLayer, a) && a <= b
      ensures StepsDown(w, vec, l, maxLayer, b)
    {
      hide Descends, GraphOK;
    }

    lemma WiresHere(w: World, nodes: seq<HNode>, h: Handle, vec: int, l: nat, maxLayer: nat, starts: seq<Handle>, next: Handle)
      requires GraphOK(w) && l < HNSW_MAX_LAYERS && l <= maxLayer && |starts| == maxLayer - l + 1
      requires LayerDone(w, nodes, h, vec, l, efConst, LayerLimit(l), starts[maxLayer - l], next)
      ensures WiresDown(w, nodes, h, vec, l, maxLayer, starts + [next])
    {
      hide LayerDone, GraphOK;
    }

    lemma WiresStay(w: World, nodes: seq<HNode>, later: seq<HNode>, h: Handle, vec: int, l: nat, maxLayer: nat, starts: seq<Handle>, next: Handle)
      requires GraphOK(w) && WiresDown(w, nodes, h, vec, l, maxLayer, starts) && LayerKept(nodes, later, l)
      ensures WiresDown(w, later, h, vec, l, maxLayer, starts + [next])
    {
      hide LayerDone, GraphOK, LayerKept;
      LayerStays(w, nodes, later, h, vec, l, efConst, LayerLimit(l), starts[maxLayer - l], starts[maxLayer - l + 1]);
    }

    /** What an insertion makes of one layer: passed on the way down above the new node, wired from there on, and
        otherwise as it was. */
    ghost predicate LayerResult(w: World, nodes: seq<HNode>, h: Handle, vec: int, l: nat, top: nat, maxLayer: nat, starts: seq<Handle>)
      requires GraphOK(w)
    {
      if l <= top && l <= maxLayer then WiresDown(w, nodes, h, vec, l, maxLayer, starts)
      else LayerKept(w.nodes, nodes, l) && (l <= maxLayer ==> StepsDown(w, vec, l, maxLayer, starts))
    }

    /** A layer above the new node: the entry point moves to the nearest node there. */
    method Descend(vec: int, lc: nat, entry: Handle, v: Visited, ghost h: Handle) returns (next: Handle)
      requires Valid() && lc < HNSW_MAX_LAYERS && Live(arena.View(), entry) && entry.slot != h.slot && Unnamed(arena.nodes[..], h, lc) && Live(arena.View(), h)
      requires v.Valid() && v.stamps.Length == arena.capacity && v.stamps != arena.gens && v.stamps as object != arena.freeBuf
      modifies v, v.stamps
      ensures Valid() && v.Valid() && Live(arena.View(), next) && next.slot != h.slot
      ensures GraphOK(Seen(arena, dist)) && Descends(Seen(arena, dist), vec, lc, entry, next)
    {
      hide NodesGood, SlotsOK, Searched, Heap, GraphOK, LinksAlive, HonestLinks, Traced, Rooted, IsNearest, Live, Unnamed;
      v.Clear();
      ghost var a := arena.View();
      GoodGraph(Seen(arena, dist), a, m, m0, lc);
      LiveResolves(a, entry);
      LiveResolves(a, h);
      ghost var q := Query(vec, None, None);
      var r;
      ghost var found;
      r, found := SearchLayer(arena, dist, Query(vec, None, None), Some(entry), 1, lc, v);
      next := entry;
      SearchedSome(Seen(arena, dist), q, lc, v.Marked(), found, r.value.Items());
      if r.value.size > 0 {
        var ok, c := r.value.Peek();
        SearchedNearest(Seen(arena, dist), q, lc, v.Marked(), found, r.value.Items(), c);
        NearestFound(Seen(arena, dist), a, q, lc, v.Marked(), found, r.value.Items(), c, h);
        next := Handle(c.slot, c.gen);
        assert DescendsBy(Seen(arena, dist), vec, lc, entry, next, v.Marked(), found, multiset(r.value.Items()), c);
      }
    }

    /** A query as the server runs it: a search for `k` nodes on layer 0 from the entry point, with a new set of seen
        slots that is not cleared. All its slots are marked, so the answer is the entry point alone, or nothing when
        the filter rejects it. */
    method Answer(q: Query, k: nat) returns (answer: Pq)
      requires Valid() && k > 0 && arena.capacity > 0
      ensures Valid() && fresh(answer) && fresh(answer.elems) && answer.Valid() && answer.isMax
      ensures ep.None? ==> answer.size == 0
      ensures ep.Some? ==> ep.value.slot < arena.capacity
      ensures ep.Some? ==> multiset(answer.Items()) == Alone(Seen(arena, dist), q, Cand(dist(q.vec, arena.nodes[ep.value.slot].vec), ep.value.slot, ep.value.gen))
    {
      hide NodesGood, SlotsOK, GraphOK, Guided, Searched, Rooted, Heap, Alone;
      GoodGraph(Seen(arena, dist), arena.View(), m, m0, 0);
      var v := new Visited(arena.capacity);
      ghost var w, start := Seen(arena, dist), v.Marked();
      var r, found := SearchLayer(arena, dist, q, ep, k, 0, v);
      if ep.Some? { MarkedAlone(w, q, 0, k, start, v.Marked(), found, multiset(r.value.Items())); }
      answer := r.value;
    }
  }

  lemma NearestAt(items: seq<Cand>, at: nat)
    requires at < |items| && forall x :: 0 <= x < |items| ==> items[at].dist <= items[x].dist
    ensures IsNearest(items, items[at])
  {
  }

  lemma NoneNear(items: seq<Cand>)
    requires forall x :: 0 <= x < |items| ==> 999999999.0 <= items[x].dist
    ensures forall c :: IsNearest(items, c) ==> c.dist >= 999999999.0
  {
  }

  /** What is chosen from the nodes a search met: few, live, one per slot, and none in the new node's slot. */
  lemma ItemsFit(w: World, a: Slots, q: Query, lc: nat, ef: nat, seen: set<nat>, found: seq<Cand>, near: multiset<Cand>, out: seq<Cand>, limit: nat,
      items: seq<Cand>, h: Handle)
    requires lc < HNSW_MAX_LAYERS && GraphOK(w) && Searched(w, q, lc, ef, seen, found, near) && Rooted(w, lc, found) && found != []
    requires Selected(w, near, out, limit) && multiset(items) == multiset(out) && a.gens == w.gens && Resolves(w.gens, h)
    requires HonestLinks(a, w.nodes, lc) && Live(a, HandleOf(found[0])) && Unnamed(w.nodes, h, lc) && found[0].slot != h.slot
    ensures |items| <= limit && AllLive(a, items) && OneSlotEach(items) && forall c :: c in items ==> c.slot != h.slot
  {
    hide GraphOK, Rooted, HonestLinks, Live, Unnamed, Met, Passes, Kept, Followed, AllAlive, NearFirst, Diverse, Settled, OneSlotEach;
    SelectedFew(w, near, out, limit, items);
    ChosenFound(found, near, out, items);
    forall i | 0 <= i < |items| ensures Live(a, HandleOf(items[i])) && items[i].slot != h.slot {
      var x :| 0 <= x < |found| && found[x] == items[i];
      MetResolves(w, q, items[i]);
      FoundLive(w, a, lc, found, x);
      FoundOther(w, lc, found, h, x);
    }
  }

  lemma MetResolves(w: World, q: Query, c: Cand)
    requires Met(w, q, c)
    ensures Resolves(w.gens, HandleOf(c))
  {
  }

  lemma NearestFound(w: World, a: Slots, q: Query, lc: nat, seen: set<nat>, found: seq<Cand>, items: seq<Cand>, c: Cand, h: Handle)
    requires lc < HNSW_MAX_LAYERS && GraphOK(w) && Searched(w, q, lc, 1, seen, found, multiset(items)) && c in items
    requires Rooted(w, lc, found) && IsNearest(found, c) && found != [] && a.gens == w.gens && Resolves(w.gens, h)
    requires HonestLinks(a, w.nodes, lc) && Live(a, HandleOf(found[0])) && Unnamed(w.nodes, h, lc) && found[0].slot != h.slot
    ensures Live(a, HandleOf(c)) && c.slot != h.slot
  {
    hide Rooted, HonestLinks, Live, Unnamed, Searched, GraphOK;
    assert c in multiset(items);
    SearchedResult(w, q, lc, 1, seen, found, multiset(items), c);
    var x :| 0 <= x < |found| && found[x] == c;
    FoundLive(w, a, lc, found, x);
    FoundOther(w, lc, found, h, x);
  }

  lemma LiveResolves(a: Slots, h: Handle)
    requires Live(a, h)
    ensures Resolves(a.gens, h) && h.slot < |a.gens|
  {
  }

  lemma AllSame(w: World)
    ensures SameVecs(w, w.nodes) && forall l :: LayerKept(w.nodes, w.nodes, l)
  {
  }

  lemma KeptOn(a: seq<HNode>, b: seq<HNode>, c: seq<HNode>, l: nat)
    requires LayerKept(a, b, l) && LayerKept(b, c, l)
    ensures LayerKept(a, c, l)
  {
    hide LinksOn;
  }

  lemma NoCands(w: World, node: nat)
    ensures CandsAt(w, node, []) == multiset{}
  {
  }

  lemma OneMoreCand(w: World, node: nat, hs: seq<Handle>, j: nat)
    requires j < |hs|
    ensures CandsAt(w, node, hs[..j + 1]) == CandsAt(w, node, hs[..j]) + CandAt(w, node, hs[j]) && hs[..0] == []
  {
    hide CandAt;
    assert hs[..j + 1][..j] == hs[..j];
  }

  lemma LastCand(w: World, node: nat, hs: seq<Handle>, h: Handle)
    ensures CandsAt(w, node, hs + [h]) == CandsAt(w, node, hs) + CandAt(w, node, h)
  {
    hide CandAt;
    assert (hs + [h])[..|hs|] == hs;
  }

  /** Writing the new node's own links disturbs no other node. */
  lemma SelfWrite(w: World, nodes: seq<HNode>, r: HNode, h: Handle, lc: nat, limit: nat, items: seq<Cand>, i: nat)
    requires PartWired(w, nodes, h, lc, limit, items, i) && h.slot < |nodes| && r.vec == nodes[h.slot].vec && r.layer == nodes[h.slot].layer
    ensures PartWired(w, nodes[h.slot := r], h, lc, limit, items, i)
  {
    hide WiredAt;
  }

  lemma LinkCount(n: HNode, lc: nat)
    ensures lc < HNSW_MAX_LAYERS && NodeOK(n, 16, 32) ==> |n.num| == HNSW_MAX_LAYERS && |LinksOn(n, lc)| == n.num[lc]
  {
  }

  /** Without a filter a search that met a node returns one. */
  lemma SearchedSome(w: World, q: Query, layer: nat, seen: set<nat>, found: seq<Cand>, items: seq<Cand>)
    requires layer < HNSW_MAX_LAYERS && GraphOK(w) && Searched(w, q, layer, 1, seen, found, multiset(items)) && found != [] && q.filter == None
    ensures items != []
  {
    hide GraphOK, Searched;
    SearchedResult(w, q, layer, 1, seen, found, multiset(items), found[0]);
    assert |multiset(items)| == |items| && (found[0] in multiset(items) ==> found[0] in items);
  }

  /** A beam of one keeps the nearest of all nodes met. */
  lemma SearchedNearest(w: World, q: Query, layer: nat, seen: set<nat>, found: seq<Cand>, items: seq<Cand>, c: Cand)
    requires layer < HNSW_MAX_LAYERS && GraphOK(w) && Searched(w, q, layer, 1, seen, found, multiset(items)) && c in items && q.filter == None
    ensures IsNearest(found, c)
  {
    hide GraphOK, Searched;
    assert c in multiset(items);
    SearchedResult(w, q, layer, 1, seen, found, multiset(items), c);
    assert |multiset(items)| == |items|;
    forall x | x in found ensures c.dist <= x.dist {
      SearchedResult(w, q, layer, 1, seen, found, multiset(items), x);
      if x in multiset(items) { assert x in items; OneItem(items, c, x); }
    }
  }

  lemma OneItem(items: seq<Cand>, c: Cand, x: Cand)
    requires |items| <= 1 && c in items && x in items
    ensures c == x
  {
  }

  /** The slot just allocated: no link named it, and the nodes are as good with the new one in it. */
  lemma NewNode(a: Slots, nodes: seq<HNode>, m: nat, m0: nat, h: Handle, vec: int, top: nat)
    requires m <= 16 && m0 <= 32 && SlotsOK(a) && a.free != [] && h == Alloc(a).0 && NodesGood(a, nodes, m, m0)
    ensures h.slot < |nodes| && NodesGood(Alloc(a).1, Added(nodes, h.slot, vec, top), m, m0)
    ensures Live(Alloc(a).1, h) && !Live(a, h)
    ensures forall l :: 0 <= l < HNSW_MAX_LAYERS ==> Unnamed(Added(nodes, h.slot, vec, top), h, l)
  {
    hide NodeGood, Live, NodeOK, Honest;
    AllocFresh(a, h);
    var more := Added(nodes, h.slot, vec, top);
    forall s | 0 <= s < |nodes| ensures NodeGood(more[s], m, m0, Alloc(a).1) {
      if s == h.slot { BareGood(m, m0, Alloc(a).1, vec, top); } else { StillGood(a, nodes[s], m, m0, h); }
    }
    forall l, s, i | 0 <= l < HNSW_MAX_LAYERS && 0 <= s < |more| && 0 <= i < |LinksOn(more[s], l)| ensures LinksOn(more[s], l)[i] != h {
      if s == h.slot { BareLinks(vec, top, l); } else { NotNamed(a, nodes[s], m, m0, h, l, i); }
    }
  }

  lemma BareLinks(vec: int, top: nat, l: nat)
    ensures LinksOn(ZeroNode().(vec := vec).(layer := top), l) == []
  {
  }

  lemma BareGood(m: nat, m0: nat, a: Slots, vec: int, top: nat)
    requires m <= 16 && m0 <= 32
    ensures NodeGood(ZeroNode().(vec := vec).(layer := top), m, m0, a)
  {
    hide Live;
  }

  lemma StillGood(a: Slots, n: HNode, m: nat, m0: nat, h: Handle)
    requires m <= 16 && m0 <= 32 && SlotsOK(a) && a.free != [] && h == Alloc(a).0 && NodeGood(n, m, m0, a)
    ensures NodeGood(n, m, m0, Alloc(a).1)
  {
    hide Honest;
    forall l, i | 0 <= l < HNSW_MAX_LAYERS && 0 <= i < n.num[l] ensures Honest(Alloc(a).1, Link(n, l, i)) { AllocHonest(a, Link(n, l, i)); }
  }

  /** Allocation keeps honest handles honest, and the one it issues was none before. */
  lemma AllocHonest(a: Slots, o: Handle)
    requires SlotsOK(a) && a.free != []
    ensures Honest(a, o) ==> Honest(Alloc(a).1, o)
    ensures !Honest(a, Alloc(a).0)
  {
    AllocFresh(a, o);
  }

  lemma NotNamed(a: Slots, n: HNode, m: nat, m0: nat, h: Handle, l: nat, i: nat)
    requires m <= 16 && m0 <= 32 && SlotsOK(a) && a.free != [] && h == Alloc(a).0 && NodeGood(n, m, m0, a) && l < HNSW_MAX_LAYERS && i < |LinksOn(n, l)|
    ensures LinksOn(n, l)[i] != h
  {
    hide Honest;
    assert LinksOn(n, l)[i] == Link(n, l, i) && Honest(a, Link(n, l, i));
    AllocHonest(a, h);
  }

  /** A live handle is not in the slot just allocated, and stays live. */
  lemma NewHandle(a: Slots, h: Handle, o: Handle)
    requires SlotsOK(a) && a.free != [] && h == Alloc(a).0 && Live(a, o)
    ensures o.slot != h.slot && Live(Alloc(a).1, o)
  {
    AllocFresh(a, o);
  }

  lemma AllCounts(a: Slots, nodes: seq<HNode>, m: nat, m0: nat)
    requires m <= 16 && m0 <= 32 && NodesGood(a, nodes, m, m0)
    ensures |nodes| == |a.gens| && forall s :: 0 <= s < |nodes| ==> NodeOK(nodes[s], m, m0) && NodeOK(nodes[s], 16, 32)
  {
    hide Live;
  }

  /** A node none of whose links are open. */
  lemma NodeWhole(a: Slots, nodes: seq<HNode>, m: nat, m0: nat, s0: nat, lc: nat, i: nat, k: nat, s: nat)
    requires m <= 16 && m0 <= 32 && NodesBut(a, nodes, m, m0, s0, lc, i, k) && s < |nodes| && s != s0
    ensures NodeGood(nodes[s], m, m0, a)
  {
    hide NodeBut, NodeGood;
    ButNothing(nodes[s], m, m0, a, lc, i);
  }

  /** What the rewritten links of a layer are, and that the other layers are untouched. */
  lemma RelinkedLinks(n: HNode, r: HNode, lc: nat, items: seq<Cand>, m: nat, m0: nat)
    requires m <= 16 && m0 <= 32 && Relinked(n, r, lc, items) && NodeOK(n, m, m0) && NodeOK(r, m, m0)
    ensures OthersKept(n, r, lc) && LinksOn(r, lc) == HandlesOf(items) && r.vec == n.vec && r.layer == n.layer
  {
    forall l | 0 <= l < HNSW_MAX_LAYERS && l != lc ensures LinksOn(r, l) == LinksOn(n, l) { SameLayer(n, r, l); }
    forall x | 0 <= x < |items| ensures LinksOn(r, lc)[x] == HandlesOf(items)[x] { assert Link(r, lc, x) == HandleOf(items[x]); }
  }

  lemma Counts(a: Slots, nodes: seq<HNode>, m: nat, m0: nat, slot: nat, lc: nat)
    requires m <= 16 && m0 <= 32 && NodesGood(a, nodes, m, m0) && slot < |nodes| && lc < HNSW_MAX_LAYERS
    ensures |nodes[slot].num| == HNSW_MAX_LAYERS && |nodes[slot].handles| == HNSW_NEIGHBOR_SLOTS
    ensures LayerStart(lc) + LayerCap(m, m0, lc) <= HNSW_NEIGHBOR_SLOTS
  {
    hide Live;
  }

  /** Announcing the number of links before they are written. */
  lemma Announce(a: Slots, nodes: seq<HNode>, m: nat, m0: nat, slot: nat, lc: nat, k: nat)
    requires m <= 16 && m0 <= 32 && NodesGood(a, nodes, m, m0) && slot < |nodes| && lc < HNSW_MAX_LAYERS && k <= LayerCap(m, m0, lc)
    ensures lc < |nodes[slot].num| && NodesBut(a, nodes[slot := WithNum(nodes[slot], lc, k)], m, m0, slot, lc, 0, k)
  {
    hide NodeBut, NodeGood;
    SlotCounts(nodes[slot], m, m0, a);
    NumBut(nodes[slot], m, m0, a, lc, k);
    forall s | 0 <= s < |nodes| ensures NodeBut(nodes[s], m, m0, a, lc, 0, 0) { ButNothing(nodes[s], m, m0, a, lc, 0); }
  }

  lemma SlotCounts(n: HNode, m: nat, m0: nat, a: Slots)
    requires m <= 16 && m0 <= 32 && NodeGood(n, m, m0, a)
    ensures |n.num| == HNSW_MAX_LAYERS
  {
  }

  /** Writing the next link of the new node. */
  lemma WriteOne(a: Slots, nodes: seq<HNode>, m: nat, m0: nat, slot: nat, lc: nat, i: nat, k: nat, h: Handle)
    requires m <= 16 && m0 <= 32 && NodesBut(a, nodes, m, m0, slot, lc, i, k) && slot < |nodes| && lc < HNSW_MAX_LAYERS
    requires i < k <= LayerCap(m, m0, lc) && Live(a, h)
    ensures LayerStart(lc) + i < |nodes[slot].handles|
    ensures NodesBut(a, nodes[slot := WithNeighbor(nodes[slot], lc, i, h)], m, m0, slot, lc, i + 1, k)
  {
    hide NodeBut, Live;
    NodeIs(a, nodes, m, m0, slot, lc, i, k, slot);
    NeighborBut(nodes[slot], m, m0, a, lc, i, k, h);
    forall s | 0 <= s < |nodes| && s != slot ensures NodeBut(nodes[s], m, m0, a, lc, i + 1, i + 1) {
      ButNothing(nodes[s], m, m0, a, lc, i);
      ButNothing(nodes[s], m, m0, a, lc, i + 1);
    }
  }

  lemma LimitPositive(m: nat, m0: nat, layer: nat)
    requires 0 < m && 0 < m0
    ensures LayerCap(m, m0, layer) > 0
  {
  }

  lemma ZeroGood(m: nat, m0: nat, a: Slots)
    requires m <= 16 && m0 <= 32
    ensures NodeGood(ZeroNode(), m, m0, a)
  {
    hide Live;
  }

  lemma NodeIs(a: Slots, nodes: seq<HNode>, m: nat, m0: nat, s0: nat, lc: nat, i: nat, k: nat, s: nat)
    requires m <= 16 && m0 <= 32 && NodesBut(a, nodes, m, m0, s0, lc, i, k) && s < |nodes|
    ensures NodeBut(nodes[s], m, m0, a, lc, i, if s == s0 then k else i)
    ensures NodeOK(nodes[s], m, m0) && |nodes[s].num| == HNSW_MAX_LAYERS && |nodes[s].handles| == HNSW_NEIGHBOR_SLOTS
    ensures forall l :: 0 <= l < HNSW_MAX_LAYERS ==> nodes[s].num[l] <= LayerCap(m, m0, l) && LayerStart(l) + LayerCap(m, m0, l) <= HNSW_NEIGHBOR_SLOTS
  {
    hide Live;
  }

  /** While a node's `size` links on a layer are rewritten: those below `j` are honest already. */
  ghost predicate RelinkBut(n: HNode, m: nat, m0: nat, a: Slots, lc: nat, j: nat, size: nat)
    requires m <= 16 && m0 <= 32 && lc < HNSW_MAX_LAYERS
  {
    && NodeBut(n, m, m0, a, lc, 0, size) && n.num[lc] == size
    && (forall x :: 0 <= x < size && x < j ==> Honest(a, Link(n, lc, x)))
  }

  /** The node's links on the layer are the candidates, and nothing else about the node has changed. */
  ghost predicate Relinked(n: HNode, r: HNode, layer: nat, items: seq<Cand>)
  {
    PartLinked(n, r, layer, items, |items|)
  }

  /** The first `j` of them are written. */
  ghost predicate PartLinked(n: HNode, r: HNode, layer: nat, items: seq<Cand>, j: nat)
  {
    && layer < HNSW_MAX_LAYERS && |n.num| == |r.num| == HNSW_MAX_LAYERS && |n.handles| == |r.handles| == HNSW_NEIGHBOR_SLOTS
    && r.vec == n.vec && r.layer == n.layer && r.num == n.num[layer := |items|]
    && j <= |items| && LayerStart(layer) + |items| <= HNSW_NEIGHBOR_SLOTS
    && (forall x :: 0 <= x < j ==> Link(r, layer, x) == Handle(items[x].slot, items[x].gen))
    && (forall x :: 0 <= x < HNSW_NEIGHBOR_SLOTS && !(LayerStart(layer) <= x < LayerStart(layer) + |items|) ==> r.handles[x] == n.handles[x])
  }

  lemma PartStart(n: HNode, layer: nat, items: seq<Cand>)
    requires layer < HNSW_MAX_LAYERS && |n.num| == HNSW_MAX_LAYERS && |n.handles| == HNSW_NEIGHBOR_SLOTS
    requires LayerStart(layer) + |items| <= HNSW_NEIGHBOR_SLOTS
    ensures PartLinked(n, WithNum(n, layer, |items|), layer, items, 0)
  {
  }

  lemma PartMore(n: HNode, r: HNode, layer: nat, items: seq<Cand>, j: nat)
    requires PartLinked(n, r, layer, items, j) && j < |items|
    ensures LayerStart(layer) + j < |r.handles|
    ensures PartLinked(n, WithNeighbor(r, layer, j, Handle(items[j].slot, items[j].gen)), layer, items, j + 1)
  {
  }

  lemma PartAll(n: HNode, r: HNode, layer: nat, items: seq<Cand>)
    requires PartLinked(n, r, layer, items, |items|)
    ensures Relinked(n, r, layer, items)
  {
  }

  lemma RelinkStart(n: HNode, m: nat, m0: nat, a: Slots, lc: nat, i: nat, e: nat, size: nat)
    requires m <= 16 && m0 <= 32 && lc < HNSW_MAX_LAYERS && NodeBut(n, m, m0, a, lc, i, e) && size <= LayerCap(m, m0, lc)
    ensures RelinkBut(WithNum(n, lc, size), m, m0, a, lc, 0, size)
  {
    hide Honest;
    var r := WithNum(n, lc, size);
    forall l, x | 0 <= l < HNSW_MAX_LAYERS && 0 <= x < r.num[l] && !(l == lc && 0 <= x < size) ensures Honest(a, Link(r, l, x)) {
      assert Link(r, l, x) == Link(n, l, x);
    }
  }

  lemma RelinkOne(n: HNode, m: nat, m0: nat, a: Slots, lc: nat, j: nat, size: nat, h: Handle)
    requires m <= 16 && m0 <= 32 && lc < HNSW_MAX_LAYERS && RelinkBut(n, m, m0, a, lc, j, size) && j < size && Live(a, h)
    ensures LayerStart(lc) + j < |n.handles| && RelinkBut(WithNeighbor(n, lc, j, h), m, m0, a, lc, j + 1, size)
  {
    hide Honest;
    LiveHonest(a, h);
    var r := WithNeighbor(n, lc, j, h);
    forall l, x | 0 <= l < HNSW_MAX_LAYERS && 0 <= x < r.num[l] && !(l == lc && 0 <= x < size) ensures Honest(a, Link(r, l, x)) {
      assert Link(r, l, x) == Link(n, l, x);
    }
    forall x | 0 <= x < j + 1 ensures Honest(a, Link(r, lc, x)) {
      if x == j { assert Link(r, lc, x) == h; } else { assert Link(r, lc, x) == Link(n, lc, x); }
    }
  }

  lemma RelinkEnd(n: HNode, m: nat, m0: nat, a: Slots, lc: nat, i: nat, e: nat, size: nat)
    requires m <= 16 && m0 <= 32 && lc < HNSW_MAX_LAYERS && RelinkBut(n, m, m0, a, lc, size, size)
    ensures NodeBut(n, m, m0, a, lc, i, e)
  {
    hide Honest;
  }
}
