/** What an insertion makes of the links of one layer, node by node: the new node is linked to the chosen
    neighbours, each of them links back or lets the new node compete for a place, and no other link changes. */
module HnswWiring {
  import opened Options
  import opened HnswArena
  import opened HnswQueue
  import opened HnswSelect
  import opened HnswLayers
  import opened HnswSearch

  /** The links of a node on a layer. */
  ghost function LinksOn(n: HNode, lc: nat): seq<Handle> {
    if lc < HNSW_MAX_LAYERS && NodeOK(n, 16, 32) then Neighbors(n, lc) else []
  }

  ghost function HandlesOf(items: seq<Cand>): (hs: seq<Handle>)
    ensures |hs| == |items| && forall i :: 0 <= i < |hs| ==> hs[i] == HandleOf(items[i])
  {
    seq(|items|, i requires 0 <= i < |items| => HandleOf(items[i]))
  }

  /** The same vectors and layers of nodes, whatever their links. */
  ghost predicate SameVecs(w: World, nodes: seq<HNode>) {
    |nodes| == |w.nodes| && forall s :: 0 <= s < |nodes| ==> nodes[s].vec == w.nodes[s].vec && nodes[s].layer == w.nodes[s].layer
  }

  // ---------- Competing for places ----------

  /** A handle as a candidate by its distance from the node, if it resolves. */
  ghost function CandAt(w: World, node: nat, o: Handle): multiset<Cand> {
    if WorldOK(w) && node < |w.nodes| && Resolves(w.gens, o)
    then multiset{Cand(w.dist(w.nodes[node].vec, w.nodes[o.slot].vec), o.slot, o.gen)} else multiset{}
  }

  ghost function CandsAt(w: World, node: nat, hs: seq<Handle>): multiset<Cand> {
    if hs == [] then multiset{} else CandsAt(w, node, hs[..|hs| - 1]) + CandAt(w, node, hs[|hs| - 1])
  }

  /** All neighbours of the node on the layer, and the new one. */
  ghost function Rivalry(w: World, node: nat, lc: nat, h: Handle): multiset<Cand>
    requires node < |w.nodes|
  {
    CandsAt(w, node, LinksOn(w.nodes[node], lc) + [h])
  }

  lemma {:induction false} CandsIn(w: World, node: nat, hs: seq<Handle>, c: Cand)
    ensures c in CandsAt(w, node, hs) ==> HandleOf(c) in hs && Resolves(w.gens, HandleOf(c))
    decreases |hs|
  {
    if hs != [] { CandsIn(w, node, hs[..|hs| - 1], c); }
  }

  lemma {:induction false} CandsSame(w: World, nodes: seq<HNode>, node: nat, hs: seq<Handle>)
    requires SameVecs(w, nodes)
    ensures CandsAt(World(w.gens, nodes, w.dist), node, hs) == CandsAt(w, node, hs)
    decreases |hs|
  {
    if hs != [] { CandsSame(w, nodes, node, hs[..|hs| - 1]); }
  }

  lemma SelectedSame(w: World, nodes: seq<HNode>, all: multiset<Cand>, out: seq<Cand>, m: nat)
    requires SameVecs(w, nodes) && Selected(w, all, out, m)
    ensures Selected(World(w.gens, nodes, w.dist), all, out, m)
  {
    var w2 := World(w.gens, nodes, w.dist);
    forall c ensures (Alive(w2, c) <==> Alive(w, c)) && VecOf(w2, c) == VecOf(w, c) {}
    forall r, c ensures Blocks(w2, r, c) <==> Blocks(w, r, c) {}
    forall c | c in all ensures Settled(w2, out, c) || (|out| == m && AllWithin(out, c.dist)) {
      if BlockedBy(w, out, c) {
        var i :| 0 <= i < |out| && out[i].dist <= c.dist && Blocks(w, out[i], c);
        assert Blocks(w2, out[i], c);
      }
    }
  }

  /** The links are a choice of at most `limit` among the rivals, in some order. */
  ghost predicate ChosenLinks(w: World, rivals: multiset<Cand>, limit: nat, links: seq<Handle>) {
    exists out, items :: Selected(w, rivals, out, limit) && multiset(items) == multiset(out) && links == HandlesOf(items)
  }

  lemma ChosenIs(w: World, rivals: multiset<Cand>, limit: nat, out: seq<Cand>, items: seq<Cand>)
    requires Selected(w, rivals, out, limit) && multiset(items) == multiset(out)
    ensures ChosenLinks(w, rivals, limit, HandlesOf(items))
  {
    hide Selected;
  }

  lemma ChosenSame(w: World, nodes: seq<HNode>, rivals: multiset<Cand>, limit: nat, links: seq<Handle>)
    requires SameVecs(w, nodes) && ChosenLinks(World(w.gens, nodes, w.dist), rivals, limit, links)
    ensures ChosenLinks(w, rivals, limit, links)
  {
    hide Selected;
    var w2 := World(w.gens, nodes, w.dist);
    var out, items :| Selected(w2, rivals, out, limit) && multiset(items) == multiset(out) && links == HandlesOf(items);
    SelectedSame(w2, w.nodes, rivals, out, limit);
  }

  /** What the way back makes of a neighbour's links: one more at the end, or, when they were full, the choice
      among all of them and the new one. */
  ghost predicate LinkedBack(w: World, s: nat, lc: nat, h: Handle, limit: nat, links: seq<Handle>)
    requires s < |w.nodes|
  {
    if |LinksOn(w.nodes[s], lc)| < limit then links == LinksOn(w.nodes[s], lc) + [h]
    else ChosenLinks(w, Rivalry(w, s, lc, h), limit, links)
  }

  // ---------- One layer, wired ----------

  /** The node's other layers are as they were. */
  ghost predicate OthersKept(n: HNode, r: HNode, lc: nat) {
    NodeOK(r, 16, 32) && forall l :: 0 <= l < HNSW_MAX_LAYERS && l != lc ==> LinksOn(r, l) == LinksOn(n, l)
  }

  ghost predicate Named(items: seq<Cand>, s: nat) {
    exists x :: 0 <= x < |items| && items[x].slot == s
  }

  /** A node other than the new one. */
  ghost predicate WiredAt(w: World, r: HNode, s: nat, h: Handle, lc: nat, limit: nat, items: seq<Cand>)
    requires s < |w.nodes|
  {
    OthersKept(w.nodes[s], r, lc) &&
    if Named(items, s) then LinkedBack(w, s, lc, h, limit, LinksOn(r, lc)) else LinksOn(r, lc) == LinksOn(w.nodes[s], lc)
  }

  /** The layer after the new node in slot `h.slot` was linked to the chosen `items`. */
  ghost predicate Wired(w: World, nodes: seq<HNode>, h: Handle, lc: nat, limit: nat, items: seq<Cand>) {
    SameVecs(w, nodes) && forall s :: 0 <= s < |nodes| ==>
      if s == h.slot then OthersKept(w.nodes[s], nodes[s], lc) && LinksOn(nodes[s], lc) == HandlesOf(items)
      else WiredAt(w, nodes[s], s, h, lc, limit, items)
  }

  /** While the links back are made: those of the first `i` chosen ones are. */
  ghost predicate PartWired(w: World, nodes: seq<HNode>, h: Handle, lc: nat, limit: nat, items: seq<Cand>, i: nat) {
    SameVecs(w, nodes) && i <= |items| && forall s :: 0 <= s < |nodes| && s != h.slot ==> WiredAt(w, nodes[s], s, h, lc, limit, items[..i])
  }

  lemma PartWiredStart(w: World, nodes: seq<HNode>, h: Handle, lc: nat, limit: nat, items: seq<Cand>)
    requires SameVecs(w, nodes) && forall s :: 0 <= s < |nodes| && s != h.slot ==> nodes[s] == w.nodes[s] && NodeOK(nodes[s], 16, 32)
    ensures PartWired(w, nodes, h, lc, limit, items, 0)
  {
  }

  lemma PartWiredEnd(w: World, nodes: seq<HNode>, h: Handle, lc: nat, limit: nat, items: seq<Cand>)
    requires PartWired(w, nodes, h, lc, limit, items, |items|) && h.slot < |nodes|
    requires OthersKept(w.nodes[h.slot], nodes[h.slot], lc) && LinksOn(nodes[h.slot], lc) == HandlesOf(items)
    ensures Wired(w, nodes, h, lc, limit, items)
  {
    hide WiredAt, OthersKept;
    assert items[..|items|] == items;
  }

  /** The next chosen one links back. */
  lemma WireOne(w: World, nodes: seq<HNode>, r: HNode, h: Handle, lc: nat, limit: nat, items: seq<Cand>, i: nat)
    requires PartWired(w, nodes, h, lc, limit, items, i) && i < |items| && OneSlotEach(items)
    requires items[i].slot < |nodes| && items[i].slot != h.slot
    requires OthersKept(nodes[items[i].slot], r, lc) && r.vec == nodes[items[i].slot].vec && r.layer == nodes[items[i].slot].layer
    requires LinkedBack(World(w.gens, nodes, w.dist), items[i].slot, lc, h, limit, LinksOn(r, lc))
    ensures PartWired(w, nodes[items[i].slot := r], h, lc, limit, items, i + 1)
  {
    hide LinkedBack, LinksOn, ChosenLinks;
    var t := items[i].slot;
    var more := nodes[t := r];
    NotYetNamed(items, i);
    assert WiredAt(w, nodes[t], t, h, lc, limit, items[..i]);
    BackSame(w, nodes, t, lc, h, limit, LinksOn(r, lc));
    forall s | 0 <= s < |more| && s != h.slot ensures WiredAt(w, more[s], s, h, lc, limit, items[..i + 1]) {
      NamedMore(items, i, s);
      assert WiredAt(w, nodes[s], s, h, lc, limit, items[..i]);
    }
  }

  lemma NotYetNamed(items: seq<Cand>, i: nat)
    requires OneSlotEach(items) && i < |items|
    ensures !Named(items[..i], items[i].slot)
  {
  }

  lemma NamedMore(items: seq<Cand>, i: nat, s: nat)
    requires i < |items|
    ensures Named(items[..i + 1], s) <==> Named(items[..i], s) || items[i].slot == s
  {
    var a, b := items[..i], items[..i + 1];
    if Named(a, s) {
      var x :| 0 <= x < |a| && a[x].slot == s;
      assert b[x].slot == s;
    }
    if items[i].slot == s { assert b[i].slot == s; }
    if Named(b, s) {
      var x :| 0 <= x < |b| && b[x].slot == s;
      if x < i { assert a[x].slot == s; }
    }
  }

  /** A node's links back do not depend on the links of others. */
  lemma BackSame(w: World, nodes: seq<HNode>, s: nat, lc: nat, h: Handle, limit: nat, links: seq<Handle>)
    requires SameVecs(w, nodes) && s < |nodes| && LinksOn(nodes[s], lc) == LinksOn(w.nodes[s], lc)
    requires LinkedBack(World(w.gens, nodes, w.dist), s, lc, h, limit, links)
    ensures LinkedBack(w, s, lc, h, limit, links)
  {
    hide LinksOn, ChosenLinks;
    CandsSame(w, nodes, s, LinksOn(w.nodes[s], lc) + [h]);
    if |LinksOn(w.nodes[s], lc)| >= limit {
      ChosenSame(w, nodes, Rivalry(w, s, lc, h), limit, links);
    }
  }

  // ---------- Layers apart ----------

  /** One layer's links are the same in both. */
  ghost predicate LayerKept(a: seq<HNode>, b: seq<HNode>, l: nat) {
    |a| == |b| && forall s :: 0 <= s < |a| ==> LinksOn(a[s], l) == LinksOn(b[s], l)
  }

  lemma WiredKeeps(w: World, nodes: seq<HNode>, h: Handle, lc: nat, limit: nat, items: seq<Cand>, l: nat)
    requires Wired(w, nodes, h, lc, limit, items) && l != lc && l < HNSW_MAX_LAYERS
    ensures LayerKept(w.nodes, nodes, l)
  {
    hide LinksOn, LinkedBack;
  }

  /** No link on the layer names the node. */
  ghost predicate Unnamed(nodes: seq<HNode>, h: Handle, l: nat) {
    forall s, i :: 0 <= s < |nodes| && 0 <= i < |LinksOn(nodes[s], l)| ==> LinksOn(nodes[s], l)[i] != h
  }

  lemma UnnamedKept(a: seq<HNode>, b: seq<HNode>, h: Handle, l: nat)
    requires Unnamed(a, h, l) && LayerKept(a, b, l)
    ensures Unnamed(b, h, l)
  {
    hide LinksOn;
  }

  lemma LinkPlace(w: World, lc: nat, a: Handle, b: Handle) returns (x: nat)
    requires lc < HNSW_MAX_LAYERS && Links(w, lc, a, b)
    ensures a.slot < |w.nodes| && x < |LinksOn(w.nodes[a.slot], lc)| && LinksOn(w.nodes[a.slot], lc)[x] == b
  {
    CountIs(w.nodes[a.slot], lc);
    var i :| 0 <= i < w.nodes[a.slot].num[lc] && Neighbors(w.nodes[a.slot], lc)[i] == b;
    x := i;
  }

  /** A search does not meet a node that no link names. */
  lemma {:induction false} FoundOther(w: World, lc: nat, found: seq<Cand>, h: Handle, i: nat)
    requires lc < HNSW_MAX_LAYERS && Rooted(w, lc, found) && Unnamed(w.nodes, h, lc) && i < |found| && found[0].slot != h.slot
    requires Resolves(w.gens, h) && Resolves(w.gens, HandleOf(found[i]))
    ensures found[i].slot != h.slot
  {
    hide Links, LinksOn;
    if i > 0 {
      assert HasLinker(w, lc, found, i);
      var j :| 0 <= j < i && Links(w, lc, HandleOf(found[j]), HandleOf(found[i]));
      var x := LinkPlace(w, lc, HandleOf(found[j]), HandleOf(found[i]));
    }
  }

  /** All links on the layer are honest. */
  ghost predicate HonestLinks(a: Slots, nodes: seq<HNode>, l: nat) {
    forall s, i :: 0 <= s < |nodes| && 0 <= i < |LinksOn(nodes[s], l)| ==> Honest(a, LinksOn(nodes[s], l)[i])
  }

  /** A search from a live entry point meets live nodes only. */
  lemma {:induction false} FoundLive(w: World, a: Slots, lc: nat, found: seq<Cand>, i: nat)
    requires lc < HNSW_MAX_LAYERS && Rooted(w, lc, found) && HonestLinks(a, w.nodes, lc) && i < |found| && Live(a, HandleOf(found[0]))
    requires Resolves(a.gens, HandleOf(found[i]))
    ensures Live(a, HandleOf(found[i]))
  {
    hide Links, LinksOn, Live, Honest;
    LiveHonest(a, HandleOf(found[i]));
    if i > 0 {
      assert HasLinker(w, lc, found, i);
      var j :| 0 <= j < i && Links(w, lc, HandleOf(found[j]), HandleOf(found[i]));
      var x := LinkPlace(w, lc, HandleOf(found[j]), HandleOf(found[i]));
    }
  }

  /** What is chosen from what a search met: met itself, one per slot. */
  lemma ChosenFound(found: seq<Cand>, near: multiset<Cand>, out: seq<Cand>, items: seq<Cand>)
    requires OneSlotEach(found) && near <= multiset(found) && multiset(out) <= near && multiset(items) == multiset(out)
    ensures OneSlotEach(items) && forall i :: 0 <= i < |items| ==> items[i] in found
  {
    assert multiset(items) <= multiset(found);
    forall i | 0 <= i < |items| ensures items[i] in found {
      assert items[i] in multiset(items);
      assert items[i] in multiset(found);
    }
    forall i, j | 0 <= i < j < |items| ensures items[i].slot != items[j].slot {
      if items[i] == items[j] {
        TwiceIn(items, i, j);
        OnceEach(found, items[i]);
      } else {
        OtherSlot(found, items[i], items[j]);
      }
    }
  }

  lemma OtherSlot(found: seq<Cand>, a: Cand, b: Cand)
    requires OneSlotEach(found) && a in found && b in found && a != b
    ensures a.slot != b.slot
  {
  }

  lemma TwiceIn(items: seq<Cand>, i: nat, j: nat)
    requires i < j < |items| && items[i] == items[j]
    ensures multiset(items)[items[i]] >= 2
  {
    assert items == items[..j] + items[j..];
    assert items[i] in items[..j] && items[i] in items[j..] by {
      assert items[..j][i] == items[i] && items[j..][0] == items[i];
    }
    assert multiset(items) == multiset(items[..j]) + multiset(items[j..]);
  }

  // ---------- What a search sees of a layer ----------

  lemma SearchedSame(w: World, nodes: seq<HNode>, q: Query, lc: nat, ef: nat, seen: set<nat>, found: seq<Cand>, res: multiset<Cand>)
    requires lc < HNSW_MAX_LAYERS && SameVecs(w, nodes) && LayerKept(w.nodes, nodes, lc) && GraphOK(w) && GraphOK(World(w.gens, nodes, w.dist))
    requires Searched(World(w.gens, nodes, w.dist), q, lc, ef, seen, found, res)
    ensures Searched(w, q, lc, ef, seen, found, res)
  {
    hide TooFar, OneSlotEach, GraphOK, Opened, Met, Passes, SameVecs, LayerKept;
    var w2 := World(w.gens, nodes, w.dist);
    forall c ensures (Met(w2, q, c) <==> Met(w, q, c)) && (Met(w, q, c) ==> (Passes(w2, q, c) <==> Passes(w, q, c))) { MetSame(w, nodes, q, c); }
    forall c | c in res ensures Passes(w, q, c) { assert c in multiset(found); }
    forall c | c in found ensures Kept(w, q, res, ef, c) && Followed(w, lc, seen, multiset{}, res, ef, c) {
      assert Kept(w2, q, res, ef, c) && Followed(w2, lc, seen, multiset{}, res, ef, c);
      if Opened(w2, lc, seen, c) { OpenedSame(w, nodes, lc, seen, c); }
    }
  }

  lemma MetSame(w: World, nodes: seq<HNode>, q: Query, c: Cand)
    requires SameVecs(w, nodes)
    ensures Met(World(w.gens, nodes, w.dist), q, c) <==> Met(w, q, c)
    ensures Passes(World(w.gens, nodes, w.dist), q, c) <==> Passes(w, q, c)
  {
    hide Accepts;
  }

  lemma OpenedSame(w: World, nodes: seq<HNode>, lc: nat, seen: set<nat>, c: Cand)
    requires lc < HNSW_MAX_LAYERS && SameVecs(w, nodes) && LayerKept(w.nodes, nodes, lc) && GraphOK(w) && GraphOK(World(w.gens, nodes, w.dist))
    requires Opened(World(w.gens, nodes, w.dist), lc, seen, c)
    ensures Opened(w, lc, seen, c)
  {
    hide NodeOK, Neighbors;
    assert c.slot < |w.nodes| && LinksOK(w, c.slot);
    assert LinksOn(w.nodes[c.slot], lc) == LinksOn(nodes[c.slot], lc);
    CountIs(w.nodes[c.slot], lc);
    CountIs(nodes[c.slot], lc);
  }

  lemma CountIs(n: HNode, lc: nat)
    requires lc < HNSW_MAX_LAYERS && NodeOK(n, 16, 32)
    ensures |n.num| == HNSW_MAX_LAYERS && LinksOn(n, lc) == Neighbors(n, lc) && |LinksOn(n, lc)| == n.num[lc]
  {
  }

  lemma RootedSame(w: World, nodes: seq<HNode>, lc: nat, found: seq<Cand>)
    requires lc < HNSW_MAX_LAYERS && LayerKept(w.nodes, nodes, lc) && GraphOK(w) && GraphOK(World(w.gens, nodes, w.dist))
    requires Rooted(World(w.gens, nodes, w.dist), lc, found)
    ensures Rooted(w, lc, found)
  {
    hide Links, GraphOK;
    var w2 := World(w.gens, nodes, w.dist);
    forall i | 1 <= i < |found| ensures HasLinker(w, lc, found, i) {
      assert HasLinker(w2, lc, found, i);
      var j :| 0 <= j < i && Links(w2, lc, HandleOf(found[j]), HandleOf(found[i]));
      LinksSame(w, nodes, lc, HandleOf(found[j]), HandleOf(found[i]));
    }
  }

  /** Whether a layer has stale links depends on its links alone. */
  lemma AliveSame(w: World, nodes: seq<HNode>, lc: nat)
    requires lc < HNSW_MAX_LAYERS && LayerKept(w.nodes, nodes, lc) && GraphOK(w) && GraphOK(World(w.gens, nodes, w.dist)) && LinksAlive(w, lc)
    ensures LinksAlive(World(w.gens, nodes, w.dist), lc)
  {
    hide Resolves;
    var w2 := World(w.gens, nodes, w.dist);
    forall s, i | 0 <= s < |nodes| && LinksOK(w2, s) && 0 <= i < nodes[s].num[lc] ensures Resolves(w.gens, Neighbors(nodes[s], lc)[i]) {
      assert LinksOK(w, s);
      CountIs(w.nodes[s], lc);
      CountIs(nodes[s], lc);
      assert LinksOn(w.nodes[s], lc) == LinksOn(nodes[s], lc);
    }
  }

  lemma LinksSame(w: World, nodes: seq<HNode>, lc: nat, a: Handle, b: Handle)
    requires lc < HNSW_MAX_LAYERS && LayerKept(w.nodes, nodes, lc) && GraphOK(w) && GraphOK(World(w.gens, nodes, w.dist))
    requires Links(World(w.gens, nodes, w.dist), lc, a, b)
    ensures Links(w, lc, a, b)
  {
    var w2 := World(w.gens, nodes, w.dist);
    assert LinksOK(w, a.slot) && LinksOK(w2, a.slot);
    var i :| 0 <= i < nodes[a.slot].num[lc] && Neighbors(nodes[a.slot], lc)[i] == b;
    assert LinksOn(w.nodes[a.slot], lc) == LinksOn(nodes[a.slot], lc);
    assert Neighbors(w.nodes[a.slot], lc)[i] == b;
  }

  // ---------- A whole insertion ----------

  const FAR_AWAY := 999999999.0

  ghost predicate IsNearest(items: seq<Cand>, c: Cand) {
    c in items && forall x :: x in items ==> c.dist <= x.dist
  }

  /** A layer above the new node: the search for the one nearest node starts at `entry`, and goes on from a node that is
      nearest of all it met. */
  ghost predicate Descends(w: World, vec: int, lc: nat, entry: Handle, next: Handle)
    requires lc < HNSW_MAX_LAYERS && GraphOK(w)
  {
    exists seen, found, near, c :: DescendsBy(w, vec, lc, entry, next, seen, found, near, c)
  }

  ghost predicate DescendsBy(w: World, vec: int, lc: nat, entry: Handle, next: Handle,
      seen: set<nat>, found: seq<Cand>, near: multiset<Cand>, c: Cand)
    requires lc < HNSW_MAX_LAYERS && GraphOK(w)
  {
    && found != [] && HandleOf(found[0]) == entry && Searched(w, Query(vec, None, None), lc, 1, seen, found, near)
    && (LinksAlive(w, lc) ==> Traced(found, {}, seen)) && Rooted(w, lc, found) && IsNearest(found, c) && next == HandleOf(c)
  }

  /** Where the search goes on below a wired layer: at a nearest chosen neighbour below the starting bound, or where
      it started. */
  ghost predicate GoesOn(items: seq<Cand>, entry: Handle, next: Handle) {
    if exists c :: IsNearest(items, c) && c.dist < 999999999.0
    then exists c :: IsNearest(items, c) && next == HandleOf(c)
    else next == entry
  }

  /** A layer is done: the new node's links on it are a choice from a whole search in the graph as it was, stale links
      included, that started at `entry`; each chosen one has linked back, and no other link of the layer has changed.
      The next search starts at `next`. */
  ghost predicate LayerDone(w: World, nodes: seq<HNode>, h: Handle, vec: int, lc: nat, ef: nat, limit: nat, entry: Handle, next: Handle)
    requires lc < HNSW_MAX_LAYERS && GraphOK(w)
  {
    exists seen, found, near, out, items :: LayerBy(w, nodes, h, vec, lc, ef, limit, entry, next, seen, found, near, out, items)
  }

  ghost predicate LayerBy(w: World, nodes: seq<HNode>, h: Handle, vec: int, lc: nat, ef: nat, limit: nat, entry: Handle, next: Handle,
      seen: set<nat>, found: seq<Cand>, near: multiset<Cand>, out: seq<Cand>, items: seq<Cand>)
    requires lc < HNSW_MAX_LAYERS && GraphOK(w)
  {
    && found != [] && HandleOf(found[0]) == entry && Searched(w, Query(vec, None, None), lc, ef, seen, found, near)
    && (LinksAlive(w, lc) ==> Traced(found, {}, seen)) && Rooted(w, lc, found)
    && Selected(w, near, out, limit) && multiset(items) == multiset(out) && GoesOn(items, entry, next)
    && |nodes| == |w.nodes| && forall s :: 0 <= s < |nodes| ==> LayerAt(w, nodes[s], s, h, lc, limit, items)
  }

  /** One node's links on a layer that is done. */
  ghost predicate LayerAt(w: World, r: HNode, s: nat, h: Handle, lc: nat, limit: nat, items: seq<Cand>)
    requires s < |w.nodes|
  {
    if s == h.slot then LinksOn(r, lc) == HandlesOf(items)
    else if Named(items, s) then LinkedBack(w, s, lc, h, limit, LinksOn(r, lc))
    else LinksOn(r, lc) == LinksOn(w.nodes[s], lc)
  }

  /** Wiring a layer that no earlier step of the insertion has touched. */
  lemma LayerFrom(w: World, before: seq<HNode>, nodes: seq<HNode>, h: Handle, vec: int, lc: nat, ef: nat, limit: nat, entry: Handle, next: Handle,
      seen: set<nat>, found: seq<Cand>, near: multiset<Cand>, out: seq<Cand>, items: seq<Cand>)
    requires lc < HNSW_MAX_LAYERS && GraphOK(w) && SameVecs(w, before) && LayerKept(w.nodes, before, lc)
    requires var w2 := World(w.gens, before, w.dist);
             && GraphOK(w2) && Searched(w2, Query(vec, None, None), lc, ef, seen, found, near) && (LinksAlive(w2, lc) ==> Traced(found, {}, seen)) && Rooted(w2, lc, found)
             && Selected(w2, near, out, limit) && multiset(items) == multiset(out) && Wired(w2, nodes, h, lc, limit, items)
    requires found != [] && HandleOf(found[0]) == entry && GoesOn(items, entry, next)
    ensures LayerDone(w, nodes, h, vec, lc, ef, limit, entry, next) && SameVecs(w, nodes)
  {
    hide Searched, Traced, Rooted, LinksAlive, Selected, GraphOK, LinkedBack, GoesOn, LinksOn, OthersKept;
    var w2 := World(w.gens, before, w.dist);
    SearchedSame(w, before, Query(vec, None, None), lc, ef, seen, found, near);
    RootedSame(w, before, lc, found);
    if LinksAlive(w, lc) { AliveSame(w, before, lc); }
    SelectedSame(w2, w.nodes, near, out, limit);
    forall s | 0 <= s < |nodes| ensures LayerAt(w, nodes[s], s, h, lc, limit, items) {
      if s != h.slot {
        assert WiredAt(w2, nodes[s], s, h, lc, limit, items);
        if Named(items, s) { BackSame(w, before, s, lc, h, limit, LinksOn(nodes[s], lc)); }
      }
    }
    assert LayerBy(w, nodes, h, vec, lc, ef, limit, entry, next, seen, found, near, out, items);
  }

  /** Later steps leave a layer that is done alone. */
  lemma LayerStays(w: World, nodes: seq<HNode>, later: seq<HNode>, h: Handle, vec: int, lc: nat, ef: nat, limit: nat, entry: Handle, next: Handle)
    requires lc < HNSW_MAX_LAYERS && GraphOK(w) && LayerDone(w, nodes, h, vec, lc, ef, limit, entry, next) && LayerKept(nodes, later, lc)
    ensures LayerDone(w, later, h, vec, lc, ef, limit, entry, next)
  {
    hide Searched, Traced, Rooted, LinksAlive, Selected, GraphOK, LinkedBack, GoesOn, LinksOn;
    var seen, found, near, out, items :| LayerBy(w, nodes, h, vec, lc, ef, limit, entry, next, seen, found, near, out, items);
    forall s | 0 <= s < |later| ensures LayerAt(w, later[s], s, h, lc, limit, items) { assert LayerAt(w, nodes[s], s, h, lc, limit, items); }
    assert LayerBy(w, later, h, vec, lc, ef, limit, entry, next, seen, found, near, out, items);
  }

  // ---------- From the memory of a node to its links ----------

  /** One more link at the end of a layer. */
  lemma MoreLinks(n: HNode, lc: nat, h: Handle, m: nat, m0: nat)
    requires m <= 16 && m0 <= 32 && NodeOK(n, m, m0) && lc < HNSW_MAX_LAYERS && n.num[lc] < LayerCap(m, m0, lc)
    ensures LayerStart(lc) + n.num[lc] < |n.handles|
    ensures var r := WithNum(WithNeighbor(n, lc, n.num[lc], h), lc, n.num[lc] + 1);
            OthersKept(n, r, lc) && LinksOn(r, lc) == LinksOn(n, lc) + [h] && r.vec == n.vec && r.layer == n.layer
  {
    var r := WithNum(WithNeighbor(n, lc, n.num[lc], h), lc, n.num[lc] + 1);
    forall l | 0 <= l < HNSW_MAX_LAYERS && l != lc ensures LinksOn(r, l) == LinksOn(n, l) { SameLayer(n, r, l); }
  }

  /** A layer whose count and handles are the same has the same links. */
  lemma SameLayer(n: HNode, r: HNode, l: nat)
    requires l < HNSW_MAX_LAYERS && NodeOK(n, 16, 32) && NodeOK(r, 16, 32) && r.num[l] == n.num[l]
    requires forall x :: LayerStart(l) <= x < LayerStart(l) + n.num[l] ==> r.handles[x] == n.handles[x]
    ensures LinksOn(r, l) == LinksOn(n, l)
  {
  }
}
