/** The beam search on one layer: from an entry point it follows neighbour links nearest first, keeps
    the `ef` nearest nodes that pass the filter, and stops when nothing nearer is left to open. */
module HnswSearch {
  import opened Options
  import opened HnswArena
  import opened HnswQueue
  import opened HnswSelect
  import opened HnswLayers

  type Doc = int

  /** The filter of a query and the documents it looks at, by vector; a missing entry is a null document. */
  datatype Query = Query(vec: int, filter: Option<Doc -> bool>, docs: Option<map<int, Doc>>)

  /** A vector passes unless there is a filter and a document and the filter rejects the document. */
  function Accepts(q: Query, vec: int): (r: bool)
    ensures r <==> (q.filter.Some? && q.docs.Some? && vec in q.docs.value ==> q.filter.value(q.docs.value[vec]))
  {
    if q.filter.Some? && q.docs.Some? && vec in q.docs.value then q.filter.value(q.docs.value[vec]) else true
  }

  /** All nodes have their layers in order, and every link names a slot of the arena. */
  ghost predicate GraphOK(w: World) {
    |w.gens| == |w.nodes| && forall s :: 0 <= s < |w.nodes| ==> LinksOK(w, s)
  }

  ghost predicate LinksOK(w: World, s: nat)
    requires s < |w.nodes|
  {
    && NodeOK(w.nodes[s], 16, 32)
    && forall l, i :: 0 <= l < HNSW_MAX_LAYERS && 0 <= i < w.nodes[s].num[l] ==> Neighbors(w.nodes[s], l)[i].slot < |w.nodes|
  }

  // ---------- What a search has found and what it keeps ----------

  /** A node met by the search: its handle resolves and its distance is the one to the query. */
  ghost predicate Met(w: World, q: Query, c: Cand) {
    WorldOK(w) && Alive(w, c) && c.dist == w.dist(q.vec, VecOf(w, c))
  }

  ghost predicate OneSlotEach(found: seq<Cand>) {
    forall i, j :: 0 <= i < j < |found| ==> found[i].slot != found[j].slot
  }

  ghost predicate NoFurther(res: multiset<Cand>, d: real) {
    forall x :: x in res ==> x.dist <= d
  }

  /** With the beam full, nothing this far away can enter it. */
  ghost predicate TooFar(res: multiset<Cand>, ef: nat, d: real) {
    |res| == ef && NoFurther(res, d)
  }

  /** All the node's links on the layer have been looked at. */
  ghost predicate Opened(w: World, layer: nat, seen: set<nat>, c: Cand)
    requires layer < HNSW_MAX_LAYERS && GraphOK(w)
  {
    c.slot < |w.nodes| && LinksOK(w, c.slot) &&
    forall i :: 0 <= i < w.nodes[c.slot].num[layer] ==> Neighbors(w.nodes[c.slot], layer)[i].slot in seen
  }

  ghost predicate Passes(w: World, q: Query, c: Cand) {
    Accepts(q, VecOf(w, c))
  }

  ghost predicate Kept(w: World, q: Query, res: multiset<Cand>, ef: nat, c: Cand) {
    Passes(w, q, c) ==> c in res || TooFar(res, ef, c.dist)
  }

  ghost predicate Followed(w: World, layer: nat, seen: set<nat>, open: multiset<Cand>, res: multiset<Cand>, ef: nat, c: Cand)
    requires layer < HNSW_MAX_LAYERS && GraphOK(w)
  {
    c in open || Opened(w, layer, seen, c) || TooFar(res, ef, c.dist)
  }

  /** The search in between: `found` are the nodes met, `open` those still to be opened, `res` the beam;
      `at` is the node whose links are being looked at. */
  ghost predicate Beam(w: World, q: Query, layer: nat, ef: nat, seen: set<nat>, found: seq<Cand>, open: multiset<Cand>,
      res: multiset<Cand>, at: Option<Cand>)
    requires layer < HNSW_MAX_LAYERS && GraphOK(w)
  {
    && (forall c :: c in found ==> Met(w, q, c) && c.slot in seen) && OneSlotEach(found)
    && open <= multiset(found) && res <= multiset(found) && |res| <= ef
    && (forall c :: c in res ==> Passes(w, q, c))
    && (forall c :: c in found ==> Kept(w, q, res, ef, c))
    && (forall c :: c in found ==> at == Some(c) || Followed(w, layer, seen, open, res, ef, c))
  }

  /** The result: the `ef` nearest of the nodes met that pass, and every node met was followed unless it is too far. */
  ghost predicate Searched(w: World, q: Query, layer: nat, ef: nat, seen: set<nat>, found: seq<Cand>, res: multiset<Cand>)
    requires layer < HNSW_MAX_LAYERS && GraphOK(w)
  {
    Beam(w, q, layer, ef, seen, found, multiset{}, res, None)
  }

  lemma SearchedResult(w: World, q: Query, layer: nat, ef: nat, seen: set<nat>, found: seq<Cand>, res: multiset<Cand>, c: Cand)
    requires layer < HNSW_MAX_LAYERS && GraphOK(w) && Searched(w, q, layer, ef, seen, found, res)
    ensures |res| <= ef
    ensures c in res ==> c in found && Met(w, q, c) && res[c] == 1
    ensures c in res && q.filter.Some? && q.docs.Some? && VecOf(w, c) in q.docs.value ==> q.filter.value(q.docs.value[VecOf(w, c)])
    ensures c in found && c !in res && (q.filter.Some? && q.docs.Some? && VecOf(w, c) in q.docs.value ==> q.filter.value(q.docs.value[VecOf(w, c)])) ==>
              |res| == ef && forall x :: x in res ==> x.dist <= c.dist
    ensures c in found ==> Opened(w, layer, seen, c) || (|res| == ef && forall x :: x in res ==> x.dist <= c.dist)
  {
    hide GraphOK, Opened, Met, Accepts;
    if c in res {
      assert c in multiset(found);
      OnceEach(found, c);
    }
  }

  /** A filter that rejects no document searches like no filter. */
  lemma OpenFilter(w: World, q: Query, layer: nat, ef: nat, seen: set<nat>, found: seq<Cand>, res: multiset<Cand>)
    requires layer < HNSW_MAX_LAYERS && GraphOK(w) && q.filter.Some? && forall d :: q.filter.value(d)
    ensures Searched(w, q, layer, ef, seen, found, res) <==> Searched(w, q.(filter := None), layer, ef, seen, found, res)
  {
    hide GraphOK, TooFar, OneSlotEach, Followed, Met;
    var p := q.(filter := None);
    forall c ensures (Met(w, q, c) <==> Met(w, p, c)) && Passes(w, q, c) && Passes(w, p, c) {
      MetAlike(w, q, p, c);
      AllAccepted(q, VecOf(w, c));
    }
    assert forall c :: Kept(w, q, res, ef, c) <==> Kept(w, p, res, ef, c);
  }

  lemma AllAccepted(q: Query, vec: int)
    requires q.filter.Some? && forall d :: q.filter.value(d)
    ensures Accepts(q, vec) && Accepts(q.(filter := None), vec)
  {
    if q.docs.Some? && vec in q.docs.value {
      var d := q.docs.value[vec];
      assert q.filter.value(d);
    }
  }

  lemma MetAlike(w: World, q: Query, p: Query, c: Cand)
    requires p.vec == q.vec
    ensures Met(w, q, c) <==> Met(w, p, c)
  {
  }

  lemma {:induction false} OnceEach(found: seq<Cand>, c: Cand)
    requires OneSlotEach(found) && c in found
    ensures multiset(found)[c] == 1
  {
    var n := |found| - 1;
    assert found == found[..n] + [found[n]];
    if c in found[..n] {
      OnceEach(found[..n], c);
      assert found[n].slot != c.slot;
    } else {
      assert multiset(found[..n])[c] == 0;
    }
  }

  // ---------- The moves of the search ----------

  /** A slot is marked as seen. */
  lemma SeeSlot(w: World, q: Query, layer: nat, ef: nat, seen: set<nat>, found: seq<Cand>, open: multiset<Cand>,
      res: multiset<Cand>, at: Option<Cand>, slot: nat)
    requires layer < HNSW_MAX_LAYERS && GraphOK(w) && Beam(w, q, layer, ef, seen, found, open, res, at)
    ensures Beam(w, q, layer, ef, seen + {slot}, found, open, res, at)
    ensures slot !in seen ==> forall c :: c in found ==> c.slot != slot
  {
    hide GraphOK, LinksOK, NodeOK, Neighbors, Met, Accepts, Kept, OneSlotEach, TooFar;
  }

  lemma FoundMore(found: seq<Cand>, n: Cand)
    requires OneSlotEach(found) && forall c :: c in found ==> c.slot != n.slot
    ensures OneSlotEach(found + [n]) && multiset(found + [n]) == multiset(found) + multiset{n}
  {
  }

  /** The beam has room: the node is opened later, and kept if it passes. */
  lemma MeetRoom(w: World, q: Query, layer: nat, ef: nat, seen: set<nat>, found: seq<Cand>, open: multiset<Cand>,
      res: multiset<Cand>, at: Option<Cand>, n: Cand)
    requires layer < HNSW_MAX_LAYERS && GraphOK(w) && Beam(w, q, layer, ef, seen, found, open, res, at)
    requires Met(w, q, n) && n.slot in seen && (forall c :: c in found ==> c.slot != n.slot) && |res| < ef
    ensures Beam(w, q, layer, ef, seen, found + [n], open + multiset{n}, if Passes(w, q, n) then res + multiset{n} else res, at)
  {
    hide GraphOK, LinksOK, NodeOK, Neighbors, Met, Accepts, OneSlotEach, Opened;
    FoundMore(found, n);
    var f, o := found + [n], open + multiset{n};
    var r := if Passes(w, q, n) then res + multiset{n} else res;
    forall c | c in f ensures Kept(w, q, r, ef, c) && (at == Some(c) || Followed(w, layer, seen, o, r, ef, c)) {
      if c !in found { assert c == n; }
    }
  }

  /** The beam is full and the node is nearer than the furthest in it: it is opened later, and takes the
      furthest one's place if it passes. */
  lemma MeetNearer(w: World, q: Query, layer: nat, ef: nat, seen: set<nat>, found: seq<Cand>, open: multiset<Cand>,
      res: multiset<Cand>, at: Option<Cand>, n: Cand, top: real, out: Cand)
    requires layer < HNSW_MAX_LAYERS && GraphOK(w) && Beam(w, q, layer, ef, seen, found, open, res, at)
    requires Met(w, q, n) && n.slot in seen && (forall c :: c in found ==> c.slot != n.slot) && |res| == ef
    requires Reaches(res, top) && n.dist < top
    requires out in res + multiset{n} && NoFurther(res + multiset{n}, out.dist)
    ensures Beam(w, q, layer, ef, seen, found + [n], open + multiset{n},
                 if Passes(w, q, n) then res + multiset{n} - multiset{out} else res, at)
  {
    hide GraphOK, Met, Passes, OneSlotEach, Kept, Followed, NoFurther, Reaches;
    FoundMore(found, n);
    var f, o := found + [n], open + multiset{n};
    var r := if Passes(w, q, n) then res + multiset{n} - multiset{out} else res;
    ReplaceFar(res, n, top, out, ef);
    BeamParts(w, q, layer, ef, seen, found, open, res, at, n, r);
    forall c | c in f ensures Kept(w, q, r, ef, c) && (at == Some(c) || Followed(w, layer, seen, o, r, ef, c)) {
      if c in found {
        NearerKeeps(w, q, layer, seen, open, res, ef, at, n, top, out, c);
      } else {
        assert c == n;
        NewNearer(w, q, layer, seen, open, res, ef, n, out);
      }
    }
  }

  /** The parts of a beam that a new node and a changed result do not disturb. */
  lemma BeamParts(w: World, q: Query, layer: nat, ef: nat, seen: set<nat>, found: seq<Cand>, open: multiset<Cand>,
      res: multiset<Cand>, at: Option<Cand>, n: Cand, r: multiset<Cand>)
    requires layer < HNSW_MAX_LAYERS && GraphOK(w) && Beam(w, q, layer, ef, seen, found, open, res, at)
    requires Met(w, q, n) && n.slot in seen && multiset(found + [n]) == multiset(found) + multiset{n}
    requires r == res || (r <= res + multiset{n} && Passes(w, q, n))
    ensures (forall c :: c in found + [n] ==> Met(w, q, c) && c.slot in seen) && open + multiset{n} <= multiset(found + [n])
    ensures r <= multiset(found + [n]) && forall c :: c in r ==> Passes(w, q, c)
  {
    hide GraphOK, Met, Passes, OneSlotEach, Kept, Followed;
  }

  /** Some node of the beam is at distance `top`, and none is further. */
  ghost predicate Reaches(res: multiset<Cand>, top: real) {
    NoFurther(res, top) && exists x :: x in res && x.dist == top
  }

  lemma ReplaceFar(res: multiset<Cand>, n: Cand, top: real, out: Cand, ef: nat)
    requires |res| == ef && Reaches(res, top) && n.dist < top && out in res + multiset{n} && NoFurther(res + multiset{n}, out.dist)
    ensures |res + multiset{n} - multiset{out}| == ef && out.dist == top && out in res
    ensures forall d: real :: NoFurther(res, d) ==> NoFurther(res + multiset{n} - multiset{out}, d)
    ensures NoFurther(res + multiset{n} - multiset{out}, out.dist)
  {
  }

  lemma NearerKeeps(w: World, q: Query, layer: nat, seen: set<nat>, open: multiset<Cand>, res: multiset<Cand>, ef: nat, at: Option<Cand>,
      n: Cand, top: real, out: Cand, c: Cand)
    requires layer < HNSW_MAX_LAYERS && GraphOK(w)
    requires Kept(w, q, res, ef, c) && (at == Some(c) || Followed(w, layer, seen, open, res, ef, c))
    requires |res| == ef && Reaches(res, top) && n.dist < top && out in res + multiset{n} && NoFurther(res + multiset{n}, out.dist)
    ensures Kept(w, q, res + multiset{n} - multiset{out}, ef, c) && Kept(w, q, res, ef, c)
    ensures at == Some(c) || Followed(w, layer, seen, open + multiset{n}, res + multiset{n} - multiset{out}, ef, c)
    ensures at == Some(c) || Followed(w, layer, seen, open + multiset{n}, res, ef, c)
  {
    hide GraphOK, Opened, Passes, Reaches, NoFurther;
    ReplaceFar(res, n, top, out, ef);
  }

  lemma NewNearer(w: World, q: Query, layer: nat, seen: set<nat>, open: multiset<Cand>, res: multiset<Cand>, ef: nat, n: Cand, out: Cand)
    requires layer < HNSW_MAX_LAYERS && GraphOK(w) && out != n
    ensures Kept(w, q, if Passes(w, q, n) then res + multiset{n} - multiset{out} else res, ef, n)
    ensures forall r :: Followed(w, layer, seen, open + multiset{n}, r, ef, n)
  {
    hide GraphOK, Opened, Passes, NoFurther;
  }

  /** The beam is full and the node is no nearer than the furthest in it: it is dropped. */
  lemma MeetFar(w: World, q: Query, layer: nat, ef: nat, seen: set<nat>, found: seq<Cand>, open: multiset<Cand>,
      res: multiset<Cand>, at: Option<Cand>, n: Cand, top: real)
    requires layer < HNSW_MAX_LAYERS && GraphOK(w) && Beam(w, q, layer, ef, seen, found, open, res, at)
    requires Met(w, q, n) && n.slot in seen && (forall c :: c in found ==> c.slot != n.slot) && |res| == ef
    requires NoFurther(res, top) && top <= n.dist
    ensures Beam(w, q, layer, ef, seen, found + [n], open, res, at)
  {
    hide GraphOK, LinksOK, NodeOK, Neighbors, Met, Accepts, OneSlotEach, Opened;
    FoundMore(found, n);
    assert TooFar(res, ef, n.dist);
    forall c | c in found + [n] ensures Kept(w, q, res, ef, c) && (at == Some(c) || Followed(w, layer, seen, open, res, ef, c)) {
      if c !in found { assert c == n; }
    }
  }

  /** The nearest open node is taken to be opened. */
  lemma TakeOpen(w: World, q: Query, layer: nat, ef: nat, seen: set<nat>, found: seq<Cand>, open: multiset<Cand>, res: multiset<Cand>, c: Cand)
    requires layer < HNSW_MAX_LAYERS && GraphOK(w) && Beam(w, q, layer, ef, seen, found, open, res, None) && c in open
    ensures c in found && Beam(w, q, layer, ef, seen, found, open - multiset{c}, res, Some(c))
  {
    hide GraphOK, Met, Accepts, OneSlotEach, Opened, Kept, TooFar;
    assert c in multiset(found);
  }

  /** Its links have all been looked at. */
  lemma OpenedOne(w: World, q: Query, layer: nat, ef: nat, seen: set<nat>, found: seq<Cand>, open: multiset<Cand>, res: multiset<Cand>, c: Cand)
    requires layer < HNSW_MAX_LAYERS && GraphOK(w) && Beam(w, q, layer, ef, seen, found, open, res, Some(c)) && Opened(w, layer, seen, c)
    ensures Beam(w, q, layer, ef, seen, found, open, res, None)
  {
    hide GraphOK, Met, Accepts, OneSlotEach, Opened, Kept, TooFar;
  }

  /** Nothing nearer than the full beam is left to open: the search may stop. */
  lemma StopEarly(w: World, q: Query, layer: nat, ef: nat, seen: set<nat>, found: seq<Cand>, open: multiset<Cand>, res: multiset<Cand>, c: Cand, top: real)
    requires layer < HNSW_MAX_LAYERS && GraphOK(w) && Beam(w, q, layer, ef, seen, found, open, res, None) && c in open
    requires |res| >= ef && NoFurther(res, top) && top < c.dist && forall x :: x in open ==> c.dist <= x.dist
    ensures Searched(w, q, layer, ef, seen, found, res)
  {
    hide GraphOK, Met, Accepts, OneSlotEach, Opened, Kept;
    forall x | x in found ensures Followed(w, layer, seen, multiset{}, res, ef, x) {
      if x in open { assert TooFar(res, ef, x.dist); }
    }
  }

  lemma StopEmpty(w: World, q: Query, layer: nat, ef: nat, seen: set<nat>, found: seq<Cand>, open: multiset<Cand>, res: multiset<Cand>)
    requires layer < HNSW_MAX_LAYERS && GraphOK(w) && Beam(w, q, layer, ef, seen, found, open, res, None) && open == multiset{}
    ensures Searched(w, q, layer, ef, seen, found, res)
  {
  }

  lemma BeamStart(w: World, q: Query, layer: nat, ef: nat, seen: set<nat>, c: Cand)
    requires layer < HNSW_MAX_LAYERS && GraphOK(w) && Met(w, q, c) && c.slot in seen && ef > 0
    ensures Beam(w, q, layer, ef, seen, [c], multiset{c}, if Passes(w, q, c) then multiset{c} else multiset{}, None)
  {
    hide GraphOK, Met, Accepts, Opened;
    assert multiset([c]) == multiset{c};
  }

  lemma BeamNothing(w: World, q: Query, layer: nat, ef: nat, seen: set<nat>)
    requires layer < HNSW_MAX_LAYERS && GraphOK(w)
    ensures Searched(w, q, layer, ef, seen, [], multiset{})
  {
    hide GraphOK, Met, Accepts, Opened;
  }

  // ---------- The search itself ----------

  /** Every slot marked since the start belongs to a node that was met. */
  ghost predicate Traced(found: seq<Cand>, start: set<nat>, seen: set<nat>) {
    forall s :: s in seen && s !in start ==> exists i :: 0 <= i < |found| && found[i].slot == s
  }

  /** No link of the layer is stale. */
  ghost predicate LinksAlive(w: World, layer: nat)
    requires layer < HNSW_MAX_LAYERS && GraphOK(w)
  {
    forall s, i :: 0 <= s < |w.nodes| && LinksOK(w, s) && 0 <= i < w.nodes[s].num[layer] ==> Resolves(w.gens, Neighbors(w.nodes[s], layer)[i])
  }

  ghost function HandleOf(c: Cand): Handle {
    Handle(c.slot, c.gen)
  }

  /** The node of `a` has a link to `b` on the layer. */
  ghost predicate Links(w: World, layer: nat, a: Handle, b: Handle)
    requires layer < HNSW_MAX_LAYERS
  {
    a.slot < |w.nodes| && NodeOK(w.nodes[a.slot], 16, 32)
    && exists i :: 0 <= i < w.nodes[a.slot].num[layer] && Neighbors(w.nodes[a.slot], layer)[i] == b
  }

  /** Every node met but the first one is linked to by one met before it. */
  ghost predicate Rooted(w: World, layer: nat, found: seq<Cand>)
    requires layer < HNSW_MAX_LAYERS
  {
    forall i :: 1 <= i < |found| ==> HasLinker(w, layer, found, i)
  }

  ghost predicate HasLinker(w: World, layer: nat, found: seq<Cand>, i: nat)
    requires layer < HNSW_MAX_LAYERS && i < |found|
  {
    exists j :: 0 <= j < i && Links(w, layer, HandleOf(found[j]), HandleOf(found[i]))
  }

  // ---------- In which order nodes are opened ----------

  /** Those of the nodes that pass and are nearer than `d`. */
  ghost function Nearer(w: World, q: Query, met: seq<Cand>, d: real): seq<Cand> {
    if met == [] then []
    else
      var last := met[|met| - 1];
      Nearer(w, q, met[..|met| - 1], d) + if Passes(w, q, last) && last.dist < d then [last] else []
  }

  ghost function SlotsOf(met: seq<Cand>): set<nat> {
    set i: nat | i < |met| :: met[i].slot
  }

  /** It is the turn of `c` to be opened when `met` are the nodes met: fewer than `ef` of them pass and are nearer, and
      of all that are nearer the links have been looked at. */
  ghost predicate Turn(w: World, q: Query, layer: nat, ef: nat, start: set<nat>, met: seq<Cand>, c: Cand)
    requires layer < HNSW_MAX_LAYERS && GraphOK(w)
  {
    && |Nearer(w, q, met, c.dist)| < ef
    && (LinksAlive(w, layer) ==> forall x :: x in met && x.dist < c.dist ==> Opened(w, layer, start + SlotsOf(met), x))
  }

  /** Every node met but the first one was unmarked at the start, and is linked to by one met before it, which was
      opened in its turn. */
  ghost predicate Guided(w: World, q: Query, layer: nat, ef: nat, start: set<nat>, found: seq<Cand>)
    requires layer < HNSW_MAX_LAYERS && GraphOK(w)
  {
    forall i :: 1 <= i < |found| ==> HasGuide(w, q, layer, ef, start, found, i)
  }

  ghost predicate HasGuide(w: World, q: Query, layer: nat, ef: nat, start: set<nat>, found: seq<Cand>, i: nat)
    requires layer < HNSW_MAX_LAYERS && GraphOK(w) && i < |found|
  {
    exists j, m :: 0 <= j < m <= i && GuidedBy(w, q, layer, ef, start, found, i, j, m)
  }

  ghost predicate GuidedBy(w: World, q: Query, layer: nat, ef: nat, start: set<nat>, found: seq<Cand>, i: nat, j: nat, m: nat)
    requires layer < HNSW_MAX_LAYERS && GraphOK(w) && j < m <= i < |found|
  {
    && found[i].slot !in start && Links(w, layer, HandleOf(found[j]), HandleOf(found[i]))
    && Turn(w, q, layer, ef, start, found[..m], found[j])
  }

  lemma GuidedRooted(w: World, q: Query, layer: nat, ef: nat, start: set<nat>, found: seq<Cand>)
    requires layer < HNSW_MAX_LAYERS && GraphOK(w) && Guided(w, q, layer, ef, start, found)
    ensures Rooted(w, layer, found)
  {
    hide Links, Turn;
    forall i | 1 <= i < |found| ensures HasLinker(w, layer, found, i) {
      assert HasGuide(w, q, layer, ef, start, found, i);
    }
  }

  lemma GuidedMore(w: World, q: Query, layer: nat, ef: nat, start: set<nat>, met: seq<Cand>, found: seq<Cand>, c: Cand, n: Cand)
    requires layer < HNSW_MAX_LAYERS && GraphOK(w) && Guided(w, q, layer, ef, start, found) && met <= found && c in met
    requires Turn(w, q, layer, ef, start, met, c) && Links(w, layer, HandleOf(c), HandleOf(n)) && n.slot !in start
    ensures Guided(w, q, layer, ef, start, found + [n])
  {
    hide Links, Turn, GraphOK;
    var f := found + [n];
    forall i | 1 <= i < |f| ensures HasGuide(w, q, layer, ef, start, f, i) {
      if i < |found| {
        assert HasGuide(w, q, layer, ef, start, found, i);
        var j, m :| 0 <= j < m <= i && GuidedBy(w, q, layer, ef, start, found, i, j, m);
        assert f[..m] == found[..m];
        assert GuidedBy(w, q, layer, ef, start, f, i, j, m);
      } else {
        var j :| 0 <= j < |met| && met[j] == c;
        assert f[..|met|] == met && f[j] == c;
        assert GuidedBy(w, q, layer, ef, start, f, i, j, |met|);
      }
    }
  }

  lemma GuidedOne(w: World, q: Query, layer: nat, ef: nat, start: set<nat>, e: Cand)
    requires layer < HNSW_MAX_LAYERS && GraphOK(w)
    ensures Guided(w, q, layer, ef, start, [e]) && Guided(w, q, layer, ef, start, [])
  {
  }

  lemma {:induction false} NearerIn(w: World, q: Query, met: seq<Cand>, d: real, x: Cand)
    ensures multiset(Nearer(w, q, met, d))[x] == if Passes(w, q, x) && x.dist < d then multiset(met)[x] else 0
  {
    hide Passes;
    if met != [] {
      var n := |met| - 1;
      NearerIn(w, q, met[..n], d, x);
      assert met == met[..n] + [met[n]];
    }
  }

  /** With fewer than `ef` in the beam, or one in it that is no nearer than `c`, fewer than `ef` that pass are nearer. */
  lemma NearerFew(w: World, q: Query, layer: nat, ef: nat, seen: set<nat>, found: seq<Cand>, open: multiset<Cand>, res: multiset<Cand>, c: Cand)
    requires layer < HNSW_MAX_LAYERS && GraphOK(w) && Beam(w, q, layer, ef, seen, found, open, res, None)
    requires |res| < ef || exists y :: y in res && c.dist <= y.dist
    ensures |Nearer(w, q, found, c.dist)| < ef
  {
    hide GraphOK, Met, Passes, Followed, OneSlotEach;
    var near := multiset(Nearer(w, q, found, c.dist));
    forall x ensures near[x] <= res[x] && (x in near ==> x.dist < c.dist) {
      NearerIn(w, q, found, c.dist, x);
      if x in near {
        assert x in multiset(found) && Kept(w, q, res, ef, x);
        OnceEach(found, x);
      }
    }
    assert near <= res && res == near + (res - near);
    if y :| y in res && c.dist <= y.dist {
      assert y !in near && y in res - near;
    }
  }

  /** The nearest open node, while the search goes on, has its turn. */
  lemma TurnIs(w: World, q: Query, layer: nat, ef: nat, seen: set<nat>, start: set<nat>, found: seq<Cand>, open: multiset<Cand>,
      res: multiset<Cand>, c: Cand)
    requires layer < HNSW_MAX_LAYERS && GraphOK(w) && Beam(w, q, layer, ef, seen, found, open, res, None)
    requires |res| < ef || exists y :: y in res && c.dist <= y.dist
    requires (forall x :: x in open ==> c.dist <= x.dist) && (LinksAlive(w, layer) ==> Traced(found, start, seen))
    ensures Turn(w, q, layer, ef, start, found, c)
  {
    hide GraphOK, Met, Passes, OneSlotEach, Kept, LinksOK, Neighbors, LinksAlive;
    NearerFew(w, q, layer, ef, seen, found, open, res, c);
    if LinksAlive(w, layer) {
      forall x | x in found && x.dist < c.dist ensures Opened(w, layer, start + SlotsOf(found), x) {
        assert Followed(w, layer, seen, open, res, ef, x);
        assert Opened(w, layer, seen, x);
        assert seen <= start + SlotsOf(found);
      }
    }
  }

  lemma TracedMore(found: seq<Cand>, start: set<nat>, seen: set<nat>, n: Cand)
    requires Traced(found, start, seen)
    ensures Traced(found + [n], start, seen + {n.slot})
  {
    forall s | s in seen + {n.slot} && s !in start ensures exists i :: 0 <= i < |found + [n]| && (found + [n])[i].slot == s {
      if s == n.slot {
        assert (found + [n])[|found|] == n;
      } else {
        var i :| 0 <= i < |found| && found[i].slot == s;
        assert (found + [n])[i] == found[i];
      }
    }
  }

  ghost function Unseen(v: Visited): set<nat>
    reads v, v.stamps
  {
    Below(v.stamps.Length) - v.Marked()
  }

  /** The parts of a search are separate objects. */
  ghost predicate Separate(arena: Arena, v: Visited, open: Pq, res: Pq)
    reads open, res
  {
    && open != res && open.elems != res.elems && Foreign(arena, open.elems) && Foreign(arena, res.elems)
    && v.stamps != arena.gens && v.stamps as object != arena.freeBuf
    && open.elems as object != v.stamps && res.elems as object != v.stamps
  }

  /** A node is met: it joins the open nodes and the beam as far as the beam's state asks for it. */
  method Meet(arena: Arena, dist: (int, int) -> real, q: Query, ef: nat, layer: nat, v: Visited, open: Pq, res: Pq, n: Cand,
      ghost w: World, ghost found: seq<Cand>, ghost at: Option<Cand>) returns (ghost found2: seq<Cand>)
    requires layer < HNSW_MAX_LAYERS && ef > 0 && arena.Valid() && w == Seen(arena, dist) && GraphOK(w)
    requires open.Valid() && res.Valid() && !open.isMax && res.isMax && Separate(arena, v, open, res)
    requires Beam(w, q, layer, ef, v.Marked(), found, multiset(open.Items()), multiset(res.Items()), at)
    requires Met(w, q, n) && n.slot in v.Marked() && forall c :: c in found ==> c.slot != n.slot
    modifies open, open.elems, res, res.elems
    ensures open.Valid() && res.Valid() && (open.elems == old(open.elems) || fresh(open.elems)) && (res.elems == old(res.elems) || fresh(res.elems))
    ensures Separate(arena, v, open, res)
    ensures found2 == found + [n] && Beam(w, q, layer, ef, v.Marked(), found2, multiset(open.Items()), multiset(res.Items()), at)
  {
    hide Heap, SlotsOK, GraphOK, Beam, Above, Met, Accepts, Reaches, NoFurther;
    ghost var o, r, seen := multiset(open.Items()), multiset(res.Items()), v.Marked();
    BeamSize(w, q, layer, ef, seen, found, o, r, at);
    PassesIs(w, q, n);
    if res.size < ef {
      MeetRoom(w, q, layer, ef, seen, found, o, r, at, n);
      open.Push(n);
      if Accepts(q, arena.nodes[n.slot].vec) {
        res.Push(n);
      }
      found2 := found + [n];
    } else {
      found2 := MeetFull(arena, dist, q, ef, layer, v, open, res, n, w, found, at);
    }
  }

  /** The same with a full beam. */
  method MeetFull(arena: Arena, dist: (int, int) -> real, q: Query, ef: nat, layer: nat, v: Visited, open: Pq, res: Pq, n: Cand,
      ghost w: World, ghost found: seq<Cand>, ghost at: Option<Cand>) returns (ghost found2: seq<Cand>)
    requires layer < HNSW_MAX_LAYERS && ef > 0 && arena.Valid() && w == Seen(arena, dist) && GraphOK(w) && res.size == ef
    requires open.Valid() && res.Valid() && !open.isMax && res.isMax && Separate(arena, v, open, res)
    requires Beam(w, q, layer, ef, v.Marked(), found, multiset(open.Items()), multiset(res.Items()), at)
    requires Met(w, q, n) && n.slot in v.Marked() && forall c :: c in found ==> c.slot != n.slot
    modifies open, open.elems, res, res.elems
    ensures open.Valid() && res.Valid() && (open.elems == old(open.elems) || fresh(open.elems)) && (res.elems == old(res.elems) || fresh(res.elems))
    ensures Separate(arena, v, open, res)
    ensures found2 == found + [n] && Beam(w, q, layer, ef, v.Marked(), found2, multiset(open.Items()), multiset(res.Items()), at)
  {
    hide Heap, SlotsOK, GraphOK, Beam, Above, Met, Accepts, Reaches, NoFurther;
    found2 := found + [n];
    ghost var o, r, seen := multiset(open.Items()), multiset(res.Items()), v.Marked();
    PassesIs(w, q, n);
    var far := Furthest(res);
    if n.dist < far {
      ghost var out := MeetIn(q, open, res, n, Accepts(q, arena.nodes[n.slot].vec));
      MeetNearer(w, q, layer, ef, seen, found, o, r, at, n, far, out);
    } else {
      MeetFar(w, q, layer, ef, seen, found, o, r, at, n, far);
    }
  }

  /** The distance of the furthest candidate in the beam. */
  method Furthest(res: Pq) returns (far: real)
    requires res.Valid() && res.isMax && res.size > 0
    ensures Reaches(multiset(res.Items()), far) && NoFurther(multiset(res.Items()), far)
  {
    hide Heap, Above, Reaches, NoFurther;
    var ok, top := res.Peek();
    PeekReaches(res.Items(), top);
    ReachesNone(multiset(res.Items()), top.dist);
    far := top.dist;
  }

  /** A node joins the open nodes, and the full beam if it passes; `out` is the furthest of the beam and it. */
  method MeetIn(q: Query, open: Pq, res: Pq, n: Cand, passes: bool) returns (ghost out: Cand)
    requires open.Valid() && res.Valid() && res.isMax && open != res && open.elems != res.elems
    modifies open, open.elems, res, res.elems
    ensures open.Valid() && res.Valid() && (open.elems == old(open.elems) || fresh(open.elems)) && (res.elems == old(res.elems) || fresh(res.elems))
    ensures open.elems != res.elems
    ensures multiset(open.Items()) == old(multiset(open.Items())) + multiset{n}
    ensures out in old(multiset(res.Items())) + multiset{n} && NoFurther(old(multiset(res.Items())) + multiset{n}, out.dist)
    ensures passes ==> multiset(res.Items()) == old(multiset(res.Items())) + multiset{n} - multiset{out}
    ensures !passes ==> multiset(res.Items()) == old(multiset(res.Items()))
  {
    hide Heap, Above, NoFurther;
    ghost var r := multiset(res.Items());
    open.Push(n);
    if passes {
      var gone := Replace(res, n);
      out := gone;
    } else {
      out := FurthestOf(r + multiset{n});
    }
  }

  /** A candidate joins a full beam and the furthest one leaves it. */
  method Replace(res: Pq, n: Cand) returns (gone: Cand)
    requires res.Valid() && res.isMax
    modifies res, res.elems
    ensures res.Valid() && (res.elems == old(res.elems) || fresh(res.elems))
    ensures gone in old(multiset(res.Items())) + multiset{n} && NoFurther(old(multiset(res.Items())) + multiset{n}, gone.dist)
    ensures multiset(res.Items()) == old(multiset(res.Items())) + multiset{n} - multiset{gone}
  {
    hide Heap, Above, NoFurther;
    res.Push(n);
    ghost var s := res.Items();
    var ok;
    ok, gone := res.Pop();
    PopFurthest(s, gone);
  }

  /** One link is looked at: a slot seen before is passed over, a stale handle only marks its slot. */
  method Look(arena: Arena, dist: (int, int) -> real, q: Query, ef: nat, layer: nat, v: Visited, open: Pq, res: Pq, h: Handle,
      ghost w: World, ghost start: set<nat>, ghost met: seq<Cand>, ghost found: seq<Cand>, ghost at: Option<Cand>)
      returns (ghost found2: seq<Cand>)
    requires layer < HNSW_MAX_LAYERS && ef > 0 && arena.Valid() && w == Seen(arena, dist) && GraphOK(w) && h.slot < arena.capacity
    requires open.Valid() && res.Valid() && !open.isMax && res.isMax && Separate(arena, v, open, res)
    requires v.Valid() && v.stamps.Length == arena.capacity
    requires Beam(w, q, layer, ef, v.Marked(), found, multiset(open.Items()), multiset(res.Items()), at)
    requires at.Some? && met <= found && at.value in met && Links(w, layer, HandleOf(at.value), h)
    requires Turn(w, q, layer, ef, start, met, at.value) && Guided(w, q, layer, ef, start, found) && start <= v.Marked()
    modifies open, open.elems, res, res.elems, v.stamps
    ensures open.Valid() && res.Valid() && (open.elems == old(open.elems) || fresh(open.elems)) && (res.elems == old(res.elems) || fresh(res.elems))
    ensures Separate(arena, v, open, res)
    ensures v.Valid() && v.Marked() == old(v.Marked()) + {h.slot} && w == Seen(arena, dist)
    ensures Beam(w, q, layer, ef, v.Marked(), found2, multiset(open.Items()), multiset(res.Items()), at)
    ensures found <= found2 && (h.slot in old(v.Marked()) ==> open.size == old(open.size))
    ensures Traced(found, start, old(v.Marked())) && Resolves(w.gens, h) ==> Traced(found2, start, v.Marked())
    ensures Guided(w, q, layer, ef, start, found2)
  {
    hide Heap, SlotsOK, GraphOK, Beam, Above, Accepts, Traced, Guided, Turn, Links;
    found2 := found;
    var seen := v.Check(h.slot);
    if !seen {
      SeeSlot(w, q, layer, ef, v.Marked(), found, multiset(open.Items()), multiset(res.Items()), at, h.slot);
      v.Mark(h.slot);
      var node := arena.GetNode(h);
      if node.Ok? {
        var n := Cand(dist(q.vec, arena.nodes[h.slot].vec), h.slot, h.gen);
        if Traced(found, start, old(v.Marked())) { TracedMore(found, start, old(v.Marked()), n); }
        GuidedMore(w, q, layer, ef, start, met, found, at.value, n);
        found2 := Meet(arena, dist, q, ef, layer, v, open, res, n, w, found, at);
      }
    } else {
      assert v.Marked() == v.Marked() + {h.slot};
    }
  }

  /** A node is opened: all its links on the layer are looked at. */
  method Open(arena: Arena, dist: (int, int) -> real, q: Query, ef: nat, layer: nat, v: Visited, open: Pq, res: Pq, c: Cand,
      ghost w: World, ghost start: set<nat>, ghost found: seq<Cand>) returns (ghost found2: seq<Cand>)
    requires layer < HNSW_MAX_LAYERS && ef > 0 && arena.Valid() && w == Seen(arena, dist) && GraphOK(w) && Alive(w, c)
    requires open.Valid() && res.Valid() && !open.isMax && res.isMax && Separate(arena, v, open, res)
    requires v.Valid() && v.stamps.Length == arena.capacity
    requires Beam(w, q, layer, ef, v.Marked(), found, multiset(open.Items()), multiset(res.Items()), Some(c)) && c in found
    requires Turn(w, q, layer, ef, start, found, c) && Guided(w, q, layer, ef, start, found) && start <= v.Marked()
    modifies open, open.elems, res, res.elems, v.stamps
    ensures open.Valid() && res.Valid() && (open.elems == old(open.elems) || fresh(open.elems)) && (res.elems == old(res.elems) || fresh(res.elems))
    ensures Separate(arena, v, open, res)
    ensures v.Valid() && old(v.Marked()) <= v.Marked() && w == Seen(arena, dist)
    ensures Beam(w, q, layer, ef, v.Marked(), found2, multiset(open.Items()), multiset(res.Items()), None)
    ensures found <= found2 && (v.Marked() == old(v.Marked()) ==> open.size == old(open.size))
    ensures Traced(found, start, old(v.Marked())) && LinksAlive(w, layer) ==> Traced(found2, start, v.Marked())
    ensures Guided(w, q, layer, ef, start, found2)
  {
    hide Heap, SlotsOK, GraphOK, Beam, Above, Accepts, Traced, NodeOK, LinksAlive, LinksOK, Resolves, Guided, Turn, Links;
    found2 := found;
    NodeLinks(w, layer, c);
    var i := 0;
    var n := arena.nodes[c.slot];
    while i < n.num[layer]
      invariant 0 <= i <= n.num[layer] && v.Valid() && w == Seen(arena, dist) && found <= found2
      invariant open.Valid() && res.Valid() && (open.elems == old(open.elems) || fresh(open.elems)) && (res.elems == old(res.elems) || fresh(res.elems))
      invariant Separate(arena, v, open, res)
      invariant old(v.Marked()) <= v.Marked() && (v.Marked() == old(v.Marked()) ==> open.size == old(open.size))
      invariant Beam(w, q, layer, ef, v.Marked(), found2, multiset(open.Items()), multiset(res.Items()), Some(c))
      invariant forall j :: 0 <= j < i ==> Neighbors(n, layer)[j].slot in v.Marked()
      invariant Traced(found, start, old(v.Marked())) && LinksAlive(w, layer) ==> Traced(found2, start, v.Marked())
      invariant Guided(w, q, layer, ef, start, found2)
    {
      var h := n.handles[LayerStart(layer) + i];
      assert h == Neighbors(n, layer)[i];
      LinkAlive(w, layer, c, i);
      LinkIs(w, layer, c, i);
      found2 := Look(arena, dist, q, ef, layer, v, open, res, h, w, start, found, found2, Some(c));
      i := i + 1;
    }
    OpenedOne(w, q, layer, ef, v.Marked(), found2, multiset(open.Items()), multiset(res.Items()), c);
  }

  lemma NodeLinks(w: World, layer: nat, c: Cand)
    requires layer < HNSW_MAX_LAYERS && GraphOK(w) && Alive(w, c)
    ensures c.slot < |w.nodes| && LinksOK(w, c.slot) && |w.nodes[c.slot].num| == HNSW_MAX_LAYERS
    ensures LayerStart(layer) + w.nodes[c.slot].num[layer] <= |w.nodes[c.slot].handles|
  {
  }

  lemma LinkIs(w: World, layer: nat, c: Cand, i: nat)
    requires layer < HNSW_MAX_LAYERS && GraphOK(w) && c.slot < |w.nodes| && LinksOK(w, c.slot) && i < w.nodes[c.slot].num[layer]
    ensures Links(w, layer, HandleOf(c), Neighbors(w.nodes[c.slot], layer)[i])
  {
    hide NodeOK, Neighbors, GraphOK;
  }

  lemma LinkAlive(w: World, layer: nat, c: Cand, i: nat)
    requires layer < HNSW_MAX_LAYERS && GraphOK(w) && c.slot < |w.nodes| && LinksOK(w, c.slot) && i < w.nodes[c.slot].num[layer]
    ensures LinksAlive(w, layer) ==> Resolves(w.gens, Neighbors(w.nodes[c.slot], layer)[i])
  {
    hide NodeOK, Resolves, Neighbors;
  }

  /** The whole search. It ends on every graph, cyclic or with stale links: a node is opened only after
      its slot was marked, and no slot is marked twice. */
  method SearchLayer(arena: Arena, dist: (int, int) -> real, q: Query, ep: Option<Handle>, ef: nat, layer: nat, v: Visited)
      returns (r: Result<Pq>, ghost found: seq<Cand>)
    requires layer < HNSW_MAX_LAYERS && ef > 0 && arena.Valid() && GraphOK(Seen(arena, dist))
    requires v.Valid() && v.stamps.Length == arena.capacity && v.stamps != arena.gens && v.stamps as object != arena.freeBuf
    modifies v.stamps
    ensures v.Valid() && old(v.Marked()) <= v.Marked()
    ensures r == StaleHandle <==> ep.Some? && !Resolves(arena.gens[..], ep.value)
    ensures r.Ok? <==> r != StaleHandle
    ensures r.Ok? ==> fresh(r.value) && fresh(r.value.elems) && r.value.Valid() && r.value.isMax
    ensures ep.None? ==> r.Ok? && found == [] && r.value.size == 0 && v.Marked() == old(v.Marked())
    ensures r.Ok? ==> Searched(Seen(arena, dist), q, layer, ef, v.Marked(), found, multiset(r.value.Items()))
    ensures r.Ok? && ep.Some? ==> found != [] && found[0] == Cand(dist(q.vec, arena.nodes[ep.value.slot].vec), ep.value.slot, ep.value.gen)
    ensures r.Ok? && LinksAlive(Seen(arena, dist), layer) ==> Traced(found, old(v.Marked()), v.Marked())
    ensures r.Ok? ==> Rooted(Seen(arena, dist), layer, found) && Guided(Seen(arena, dist), q, layer, ef, old(v.Marked()), found)
  {
    hide Heap, SlotsOK, GraphOK, Beam, Above, Accepts, Traced, LinksAlive, Searched, Met, NoFurther, Reaches, Rooted, Guided;
    found := [];
    ghost var w, start := Seen(arena, dist), v.Marked();
    if ep.None? {
      var none := new Pq(ef, true);
      BeamNothing(w, q, layer, ef, start);
      TracedStart(start);
      GuidedOne(w, q, layer, ef, start, Cand(0.0, 0, 0));
      GuidedRooted(w, q, layer, ef, start, []);
      return Ok(none), found;
    }
    var node := arena.GetNode(ep.value);
    if !node.Ok? {
      return StaleHandle, found;
    }
    var e := Cand(dist(q.vec, arena.nodes[ep.value.slot].vec), ep.value.slot, ep.value.gen);
    EntryMet(w, q, e);
    var open, res := Enter(q, ef, v, e, Accepts(q, arena.nodes[e.slot].vec));
    BeamStart(w, q, layer, ef, v.Marked(), e);
    TracedStart(start);
    TracedMore([], start, start, e);
    GuidedOne(w, q, layer, ef, start, e);
    assert [] + [e] == [e];
    found := SearchOn(arena, dist, q, ef, layer, v, open, res, w, start, [e]);
    GuidedRooted(w, q, layer, ef, start, found);
    r := Ok(res);
  }

  /** The two queues with the entry point in them. */
  method Enter(q: Query, ef: nat, v: Visited, e: Cand, passes: bool) returns (open: Pq, res: Pq)
    requires ef > 0 && v.Valid() && e.slot < v.stamps.Length
    modifies v.stamps
    ensures fresh(open) && fresh(open.elems) && fresh(res) && fresh(res.elems) && open != res && open.elems != res.elems
    ensures open.Valid() && res.Valid() && !open.isMax && res.isMax && v.Valid() && v.Marked() == old(v.Marked()) + {e.slot}
    ensures multiset(open.Items()) == multiset{e} && multiset(res.Items()) == if passes then multiset{e} else multiset{}
  {
    hide Heap, Above;
    open := new Pq(ef, false);
    res := new Pq(ef, true);
    open.Push(e);
    if passes {
      res.Push(e);
    }
    v.Mark(e.slot);
  }

  lemma EntryMet(w: World, q: Query, e: Cand)
    requires WorldOK(w) && Resolves(w.gens, Handle(e.slot, e.gen)) && e.slot < |w.nodes| && e.dist == w.dist(q.vec, w.nodes[e.slot].vec)
    ensures Met(w, q, e) && (Passes(w, q, e) <==> Accepts(q, w.nodes[e.slot].vec))
  {
    hide Accepts;
  }

  lemma TracedStart(start: set<nat>)
    ensures Traced([], start, start)
  {
  }

  /** The loop of the search: open the nearest node left until none is left or none can matter. */
  method SearchOn(arena: Arena, dist: (int, int) -> real, q: Query, ef: nat, layer: nat, v: Visited, open: Pq, res: Pq,
      ghost w: World, ghost start: set<nat>, ghost found: seq<Cand>) returns (ghost found2: seq<Cand>)
    requires layer < HNSW_MAX_LAYERS && ef > 0 && arena.Valid() && w == Seen(arena, dist) && GraphOK(w)
    requires open.Valid() && res.Valid() && !open.isMax && res.isMax && Separate(arena, v, open, res)
    requires v.Valid() && v.stamps.Length == arena.capacity && start <= v.Marked() && found != []
    requires Beam(w, q, layer, ef, v.Marked(), found, multiset(open.Items()), multiset(res.Items()), None)
    requires (LinksAlive(w, layer) ==> Traced(found, start, v.Marked())) && Guided(w, q, layer, ef, start, found)
    modifies open, open.elems, res, res.elems, v.stamps
    ensures res.Valid() && (res.elems == old(res.elems) || fresh(res.elems)) && v.Valid() && start <= v.Marked() && w == Seen(arena, dist)
    ensures Searched(w, q, layer, ef, v.Marked(), found2, multiset(res.Items()))
    ensures found2 != [] && found2[0] == found[0]
    ensures (LinksAlive(w, layer) ==> Traced(found2, start, v.Marked())) && Guided(w, q, layer, ef, start, found2)
  {
    hide Heap, SlotsOK, GraphOK, Beam, Above, Accepts, Traced, LinksAlive, Searched, Met, NoFurther, Reaches, Alive, Guided;
    found2 := found;
    while open.size > 0
      invariant open.Valid() && res.Valid() && (open.elems == old(open.elems) || fresh(open.elems)) && (res.elems == old(res.elems) || fresh(res.elems))
      invariant Separate(arena, v, open, res)
      invariant v.Valid() && start <= v.Marked() && w == Seen(arena, dist) && found <= found2
      invariant Beam(w, q, layer, ef, v.Marked(), found2, multiset(open.Items()), multiset(res.Items()), None)
      invariant (LinksAlive(w, layer) ==> Traced(found2, start, v.Marked())) && Guided(w, q, layer, ef, start, found2)
      decreases |Unseen(v)|, open.size
    {
      var stop;
      stop, found2 := Advance(arena, dist, q, ef, layer, v, open, res, w, start, found2);
      if stop {
        return;
      }
    }
    StopEmpty(w, q, layer, ef, v.Marked(), found2, multiset(open.Items()), multiset(res.Items()));
  }

  /** One round: the nearest open node is opened, unless the search may stop. */
  method Advance(arena: Arena, dist: (int, int) -> real, q: Query, ef: nat, layer: nat, v: Visited, open: Pq, res: Pq,
      ghost w: World, ghost start: set<nat>, ghost found: seq<Cand>) returns (stop: bool, ghost found2: seq<Cand>)
    requires layer < HNSW_MAX_LAYERS && ef > 0 && arena.Valid() && w == Seen(arena, dist) && GraphOK(w) && open.size > 0
    requires open.Valid() && res.Valid() && !open.isMax && res.isMax && Separate(arena, v, open, res)
    requires v.Valid() && v.stamps.Length == arena.capacity
    requires Beam(w, q, layer, ef, v.Marked(), found, multiset(open.Items()), multiset(res.Items()), None)
    requires (LinksAlive(w, layer) ==> Traced(found, start, v.Marked())) && Guided(w, q, layer, ef, start, found) && start <= v.Marked()
    modifies open, open.elems, res, res.elems, v.stamps
    ensures open.Valid() && res.Valid() && (open.elems == old(open.elems) || fresh(open.elems)) && (res.elems == old(res.elems) || fresh(res.elems))
    ensures Separate(arena, v, open, res)
    ensures v.Valid() && old(v.Marked()) <= v.Marked() && w == Seen(arena, dist) && found <= found2
    ensures stop ==> Searched(w, q, layer, ef, v.Marked(), found2, multiset(res.Items()))
    ensures !stop ==> Beam(w, q, layer, ef, v.Marked(), found2, multiset(open.Items()), multiset(res.Items()), None)
    ensures |Unseen(v)| < old(|Unseen(v)|) || (|Unseen(v)| == old(|Unseen(v)|) && open.size < old(open.size))
    ensures (LinksAlive(w, layer) ==> Traced(found2, start, v.Marked())) && Guided(w, q, layer, ef, start, found2)
  {
    hide Heap, SlotsOK, GraphOK, Beam, Above, Accepts, Traced, LinksAlive, Searched, Met, NoFurther, Reaches, Alive, Guided, Turn;
    found2 := found;
    var c;
    stop, c := TakeNext(q, ef, layer, open, res, w, v.Marked(), start, found);
    if !stop {
      ghost var before := v.Marked();
      found2 := Open(arena, dist, q, ef, layer, v, open, res, c, w, start, found);
      FewerUnseen(before, v.Marked(), v.stamps.Length);
    }
  }

  /** The nearest open node, or the end of the search when it is further than a full beam. */
  method TakeNext(q: Query, ef: nat, layer: nat, open: Pq, res: Pq, ghost w: World, ghost seen: set<nat>, ghost start: set<nat>,
      ghost found: seq<Cand>) returns (stop: bool, c: Cand)
    requires layer < HNSW_MAX_LAYERS && ef > 0 && GraphOK(w) && open.size > 0
    requires open.Valid() && res.Valid() && !open.isMax && res.isMax && open != res && open.elems != res.elems
    requires Beam(w, q, layer, ef, seen, found, multiset(open.Items()), multiset(res.Items()), None)
    requires LinksAlive(w, layer) ==> Traced(found, start, seen)
    modifies open`size, open.elems
    ensures open.Valid() && open.size == old(open.size) - 1
    ensures stop ==> Searched(w, q, layer, ef, seen, found, multiset(res.Items()))
    ensures !stop ==> c in found && Alive(w, c) && Beam(w, q, layer, ef, seen, found, multiset(open.Items()), multiset(res.Items()), Some(c))
    ensures !stop ==> Turn(w, q, layer, ef, start, found, c)
  {
    hide Heap, GraphOK, Beam, Above, Accepts, Searched, Met, NoFurther, Alive, Turn, LinksAlive, Traced;
    ghost var left, beam := multiset(open.Items()), multiset(res.Items());
    stop, c := PopBefore(ef, open, res);
    if stop {
      ghost var far :| NoFurther(beam, far) && far < c.dist;
      StopEarly(w, q, layer, ef, seen, found, left, beam, c, far);
    } else {
      TurnIs(w, q, layer, ef, seen, start, found, left, beam, c);
      TakeOpen(w, q, layer, ef, seen, found, left, beam, c);
      OpenAlive(w, q, layer, ef, seen, found, left - multiset{c}, beam, Some(c), c);
    }
  }

  /** The nearest open node, and whether the beam is full and all of it nearer. */
  method PopBefore(ef: nat, open: Pq, res: Pq) returns (stop: bool, c: Cand)
    requires open.Valid() && res.Valid() && !open.isMax && res.isMax && open != res && open.elems != res.elems && open.size > 0 && ef > 0
    modifies open`size, open.elems
    ensures open.Valid() && open.size == old(open.size) - 1 && c in old(multiset(open.Items()))
    ensures multiset(open.Items()) == old(multiset(open.Items())) - multiset{c}
    ensures forall x :: x in old(multiset(open.Items())) ==> c.dist <= x.dist
    ensures stop ==> |multiset(res.Items())| >= ef && exists far: real :: NoFurther(multiset(res.Items()), far) && far < c.dist
    ensures !stop ==> |multiset(res.Items())| < ef || exists y :: y in multiset(res.Items()) && c.dist <= y.dist
  {
    hide Heap, Above, NoFurther;
    ghost var left := multiset(open.Items());
    var ok;
    ok, c := open.Pop();
    NearestLeft(left, c);
    stop := false;
    if res.size > 0 {
      var far := Furthest(res);
      stop := c.dist > far && res.size >= ef;
    }
  }

  lemma OpenAlive(w: World, q: Query, layer: nat, ef: nat, seen: set<nat>, found: seq<Cand>, open: multiset<Cand>, res: multiset<Cand>,
      at: Option<Cand>, c: Cand)
    requires layer < HNSW_MAX_LAYERS && GraphOK(w) && Beam(w, q, layer, ef, seen, found, open, res, at) && c in found
    ensures Alive(w, c)
  {
    hide GraphOK, Alive;
  }

  lemma FewerUnseen(before: set<nat>, after: set<nat>, n: nat)
    requires before <= after && forall s :: s in after ==> s < n
    ensures |Below(n) - after| <= |Below(n) - before|
    ensures before != after ==> |Below(n) - after| < |Below(n) - before|
  {
    BelowIs(n);
    var a, b := Below(n) - after, Below(n) - before;
    assert b == a + (b - a);
    if before != after {
      var s :| s in after && s !in before;
      assert s in b && s !in a;
    }
  }

  lemma BeamSize(w: World, q: Query, layer: nat, ef: nat, seen: set<nat>, found: seq<Cand>, open: multiset<Cand>, res: multiset<Cand>, at: Option<Cand>)
    requires layer < HNSW_MAX_LAYERS && GraphOK(w) && Beam(w, q, layer, ef, seen, found, open, res, at)
    ensures |res| <= ef
  {
  }

  lemma PassesIs(w: World, q: Query, n: Cand)
    requires Met(w, q, n)
    ensures n.slot < |w.nodes| && (Passes(w, q, n) <==> Accepts(q, w.nodes[n.slot].vec))
  {
    hide Accepts;
  }

  lemma PeekReaches(s: seq<Cand>, far: Cand)
    requires far in s && forall x :: x in s ==> !Above(true, x, far)
    ensures Reaches(multiset(s), far.dist)
  {
    assert far in multiset(s);
    PopFurthest(s, far);
  }

  lemma ReachesNone(res: multiset<Cand>, top: real)
    requires Reaches(res, top)
    ensures NoFurther(res, top)
  {
  }

  lemma PopFurthest(s: seq<Cand>, gone: Cand)
    requires forall x :: x in s ==> !Above(true, x, gone)
    ensures NoFurther(multiset(s), gone.dist)
  {
    forall x | x in multiset(s) ensures x.dist <= gone.dist {
      assert x in s && !Above(true, x, gone);
    }
  }

  lemma FurthestOf(all: multiset<Cand>) returns (out: Cand)
    requires all != multiset{}
    ensures out in all && NoFurther(all, out.dist)
    decreases |all|
  {
    var c :| c in all;
    var rest := all - multiset{c};
    if rest == multiset{} {
      out := c;
      assert all == rest + multiset{c};
    } else {
      out := FurthestOf(rest);
      if out.dist < c.dist { out := c; }
      forall x | x in all ensures x.dist <= out.dist { if x != c { assert x in rest; } }
    }
  }

  // ---------- When the beam never fills ----------

  /** A chain of links on the layer from one handle to another. */
  ghost predicate Path(w: World, layer: nat, p: seq<Handle>)
    requires layer < HNSW_MAX_LAYERS
  {
    p != [] && forall i :: 0 <= i < |p| - 1 ==> Links(w, layer, p[i], p[i + 1])
  }

  ghost predicate Reachable(w: World, layer: nat, a: Handle, b: Handle)
    requires layer < HNSW_MAX_LAYERS
  {
    exists p :: Path(w, layer, p) && p[0] == a && p[|p| - 1] == b
  }

  lemma ReachableMore(w: World, layer: nat, a: Handle, b: Handle, c: Handle)
    requires layer < HNSW_MAX_LAYERS && Reachable(w, layer, a, b) && Links(w, layer, b, c)
    ensures Reachable(w, layer, a, c)
  {
    hide Links;
    var p :| Path(w, layer, p) && p[0] == a && p[|p| - 1] == b;
    var t := p + [c];
    forall i | 0 <= i < |t| - 1 ensures Links(w, layer, t[i], t[i + 1]) { if i < |p| - 1 { assert t[i] == p[i] && t[i + 1] == p[i + 1]; } }
    assert Path(w, layer, t);
  }

  lemma {:induction false} FoundReachable(w: World, layer: nat, found: seq<Cand>, i: nat)
    requires layer < HNSW_MAX_LAYERS && Rooted(w, layer, found) && i < |found|
    ensures Reachable(w, layer, HandleOf(found[0]), HandleOf(found[i]))
    decreases i
  {
    hide Links, Reachable;
    if i == 0 {
      ReachableSelf(w, layer, HandleOf(found[0]));
    } else {
      assert HasLinker(w, layer, found, i);
      var j :| 0 <= j < i && Links(w, layer, HandleOf(found[j]), HandleOf(found[i]));
      FoundReachable(w, layer, found, j);
      ReachableMore(w, layer, HandleOf(found[0]), HandleOf(found[j]), HandleOf(found[i]));
    }
  }

  lemma ReachableSelf(w: World, layer: nat, a: Handle)
    requires layer < HNSW_MAX_LAYERS
    ensures Reachable(w, layer, a, a)
  {
    assert Path(w, layer, [a]);
  }

  /** Nothing was too far: what a node that was met links to was met. */
  lemma FoundClosed(w: World, q: Query, layer: nat, ef: nat, seen: set<nat>, found: seq<Cand>, res: multiset<Cand>, c: Cand, h: Handle)
    requires layer < HNSW_MAX_LAYERS && GraphOK(w) && LinksAlive(w, layer) && Searched(w, q, layer, ef, seen, found, res) && |res| < ef
    requires Traced(found, {}, seen) && c in found && Links(w, layer, HandleOf(c), h)
    ensures exists i :: 0 <= i < |found| && HandleOf(found[i]) == h
  {
    hide Accepts, Neighbors;
    SearchedResult(w, q, layer, ef, seen, found, res, c);
    var x :| 0 <= x < w.nodes[c.slot].num[layer] && Neighbors(w.nodes[c.slot], layer)[x] == h;
    LinkAlive(w, layer, c, x);
    var i :| 0 <= i < |found| && found[i].slot == h.slot;
    SearchedResult(w, q, layer, ef, seen, found, res, found[i]);
    assert Met(w, q, found[i]);
  }

  /** Without stale links, a search whose beam never filled returns exactly the nodes that can be reached from the
      entry point and pass the filter. */
  lemma SearchComplete(w: World, q: Query, layer: nat, ef: nat, seen: set<nat>, found: seq<Cand>, res: multiset<Cand>, h: Handle)
    requires layer < HNSW_MAX_LAYERS && GraphOK(w) && LinksAlive(w, layer) && Searched(w, q, layer, ef, seen, found, res) && |res| < ef
    requires Traced(found, {}, seen) && Rooted(w, layer, found) && found != []
    ensures (exists c :: c in res && HandleOf(c) == h)
            <==> Reachable(w, layer, HandleOf(found[0]), h) && h.slot < |w.nodes| &&
                 (q.filter.Some? && q.docs.Some? && w.nodes[h.slot].vec in q.docs.value ==> q.filter.value(q.docs.value[w.nodes[h.slot].vec]))
  {
    hide Accepts, Searched, GraphOK, LinksAlive, Traced, Rooted, Links, Reachable, Met;
    if c :| c in res && HandleOf(c) == h {
      SearchedResult(w, q, layer, ef, seen, found, res, c);
      var i :| 0 <= i < |found| && found[i] == c;
      FoundReachable(w, layer, found, i);
      PassesIs(w, q, c);
    }
    if Reachable(w, layer, HandleOf(found[0]), h) && h.slot < |w.nodes| && Accepts(q, w.nodes[h.slot].vec) {
      var i := ReachedFound(w, q, layer, ef, seen, found, res, h);
      SearchedResult(w, q, layer, ef, seen, found, res, found[i]);
      FoundMet(w, q, layer, ef, seen, found, res, found[i]);
      PassesIs(w, q, found[i]);
    }
  }

  lemma FoundMet(w: World, q: Query, layer: nat, ef: nat, seen: set<nat>, found: seq<Cand>, res: multiset<Cand>, c: Cand)
    requires layer < HNSW_MAX_LAYERS && GraphOK(w) && Searched(w, q, layer, ef, seen, found, res) && c in found
    ensures Met(w, q, c)
  {
    hide GraphOK, Met;
  }

  lemma ReachedFound(w: World, q: Query, layer: nat, ef: nat, seen: set<nat>, found: seq<Cand>, res: multiset<Cand>, h: Handle) returns (i: nat)
    requires layer < HNSW_MAX_LAYERS && GraphOK(w) && LinksAlive(w, layer) && Searched(w, q, layer, ef, seen, found, res) && |res| < ef
    requires Traced(found, {}, seen) && found != [] && Reachable(w, layer, HandleOf(found[0]), h)
    ensures i < |found| && HandleOf(found[i]) == h
  {
    hide Searched, GraphOK, LinksAlive, Traced, Links;
    var p :| Path(w, layer, p) && p[0] == HandleOf(found[0]) && p[|p| - 1] == h;
    i := PathFound(w, q, layer, ef, seen, found, res, p, |p| - 1);
  }

  lemma {:induction false} PathFound(w: World, q: Query, layer: nat, ef: nat, seen: set<nat>, found: seq<Cand>, res: multiset<Cand>, p: seq<Handle>, n: nat)
      returns (i: nat)
    requires layer < HNSW_MAX_LAYERS && GraphOK(w) && LinksAlive(w, layer) && Searched(w, q, layer, ef, seen, found, res) && |res| < ef
    requires Traced(found, {}, seen) && found != [] && Path(w, layer, p) && p[0] == HandleOf(found[0]) && n < |p|
    ensures i < |found| && HandleOf(found[i]) == p[n]
    decreases n
  {
    hide Searched, GraphOK, LinksAlive, Traced, Links;
    if n == 0 {
      i := 0;
    } else {
      var j := PathFound(w, q, layer, ef, seen, found, res, p, n - 1);
      assert Links(w, layer, p[n - 1], p[n - 1 + 1]);
      FoundClosed(w, q, layer, ef, seen, found, res, found[j], p[n]);
      i :| 0 <= i < |found| && HandleOf(found[i]) == p[n];
    }
  }

  // ---------- A search whose slots are all marked ----------

  /** What is left of an answer when only the entry point is met. */
  ghost function Alone(w: World, q: Query, e: Cand): multiset<Cand> {
    if q.filter.Some? && q.docs.Some? && VecOf(w, e) in q.docs.value && !q.filter.value(q.docs.value[VecOf(w, e)]) then multiset{}
    else multiset{e}
  }

  /** A search that starts with every slot marked meets its entry point only. */
  lemma MarkedAlone(w: World, q: Query, layer: nat, ef: nat, start: set<nat>, seen: set<nat>, found: seq<Cand>, res: multiset<Cand>)
    requires layer < HNSW_MAX_LAYERS && GraphOK(w) && Searched(w, q, layer, ef, seen, found, res) && ef > 0 && found != []
    requires Guided(w, q, layer, ef, start, found) && forall s: nat :: s < |w.nodes| ==> s in start
    ensures found == [found[0]] && res == Alone(w, q, found[0])
  {
    hide GraphOK, Turn, Links;
    if |found| > 1 {
      assert HasGuide(w, q, layer, ef, start, found, 1);
      FoundMet(w, q, layer, ef, seen, found, res, found[1]);
      assert false;
    }
    assert found == [found[0]];
    OneFound(w, q, layer, ef, seen, found, res);
  }

  lemma OneFound(w: World, q: Query, layer: nat, ef: nat, seen: set<nat>, found: seq<Cand>, res: multiset<Cand>)
    requires layer < HNSW_MAX_LAYERS && GraphOK(w) && Searched(w, q, layer, ef, seen, found, res) && ef > 0 && |found| == 1
    ensures res == Alone(w, q, found[0])
  {
    hide GraphOK, Met, Opened, Accepts;
    var e := found[0];
    SearchedResult(w, q, layer, ef, seen, found, res, e);
    if |res| > 0 {
      var x :| x in res;
      SearchedResult(w, q, layer, ef, seen, found, res, x);
    }
    forall c ensures res[c] == Alone(w, q, e)[c] {
      SearchedResult(w, q, layer, ef, seen, found, res, c);
    }
  }

  /** Without stale links, for at least two places: that is what a search from a cleared set answers if and only if no
      other node that can be reached from the entry point passes the filter. */
  lemma AloneExact(w: World, q: Query, layer: nat, ef: nat, seen: set<nat>, found: seq<Cand>, res: multiset<Cand>)
    requires layer < HNSW_MAX_LAYERS && GraphOK(w) && LinksAlive(w, layer) && Searched(w, q, layer, ef, seen, found, res) && ef >= 2
    requires Traced(found, {}, seen) && Rooted(w, layer, found) && found != []
    ensures res == Alone(w, q, found[0]) <==>
              forall h :: Reachable(w, layer, HandleOf(found[0]), h) && h.slot < |w.nodes| && Accepts(q, w.nodes[h.slot].vec) ==> h == HandleOf(found[0])
  {
    hide Searched, GraphOK, LinksAlive, Traced, Rooted, Links, Reachable, Met, Accepts;
    var e := found[0];
    if c :| c in res && c != e {
      SearchedResult(w, q, layer, ef, seen, found, res, c);
      OtherHandle(w, q, layer, ef, seen, found, res, c);
      var i :| 0 <= i < |found| && found[i] == c;
      FoundReachable(w, layer, found, i);
      FoundMet(w, q, layer, ef, seen, found, res, c);
      PassesIs(w, q, c);
    } else {
      forall c ensures res[c] == Alone(w, q, e)[c] {
        SearchedResult(w, q, layer, ef, seen, found, res, c);
        SearchedResult(w, q, layer, ef, seen, found, res, e);
      }
      FewAlone(res, e, ef);
      forall h | Reachable(w, layer, HandleOf(e), h) && h.slot < |w.nodes| && Accepts(q, w.nodes[h.slot].vec) ensures h == HandleOf(e) {
        SearchComplete(w, q, layer, ef, seen, found, res, h);
      }
    }
  }

  lemma FewAlone(res: multiset<Cand>, e: Cand, ef: nat)
    requires (forall c :: c in res ==> c == e) && res[e] <= 1 && ef >= 2
    ensures |res| < ef
  {
    if e in res { assert res == multiset{e}; } else { assert res == multiset{}; }
  }

  lemma OtherHandle(w: World, q: Query, layer: nat, ef: nat, seen: set<nat>, found: seq<Cand>, res: multiset<Cand>, c: Cand)
    requires layer < HNSW_MAX_LAYERS && GraphOK(w) && Searched(w, q, layer, ef, seen, found, res) && found != [] && c in found && c != found[0]
    ensures HandleOf(c) != HandleOf(found[0])
  {
    hide GraphOK, Met, Kept, Followed;
    var i :| 0 <= i < |found| && found[i] == c;
    assert found[0].slot != found[i].slot;
  }
}
