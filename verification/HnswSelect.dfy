/** Choosing the neighbours of a node: nearest first, and never one that lies closer to a chosen
    neighbour than to the node itself. */
module HnswSelect {
  import opened HnswArena
  import opened HnswQueue

  /** What the choice looks at: which handles resolve, the vectors, and the distance between two of them. */
  datatype World = World(gens: seq<int>, nodes: seq<HNode>, dist: (int, int) -> real)

  ghost predicate WorldOK(w: World) {
    |w.gens| == |w.nodes|
  }

  ghost predicate Alive(w: World, c: Cand) {
    Resolves(w.gens, Handle(c.slot, c.gen))
  }

  ghost function VecOf(w: World, c: Cand): int {
    if c.slot < |w.nodes| then w.nodes[c.slot].vec else 0
  }

  /** `c` lies closer to the chosen `r` than to the node that chooses. */
  ghost predicate Blocks(w: World, r: Cand, c: Cand) {
    Alive(w, r) && w.dist(VecOf(w, c), VecOf(w, r)) < c.dist
  }

  ghost predicate BlockedBy(w: World, out: seq<Cand>, c: Cand) {
    exists i :: 0 <= i < |out| && out[i].dist <= c.dist && Blocks(w, out[i], c)
  }

  ghost predicate NearFirst(out: seq<Cand>) {
    forall i, j :: 0 <= i < j < |out| ==> out[i].dist <= out[j].dist
  }

  ghost predicate Diverse(w: World, out: seq<Cand>) {
    forall i, j :: 0 <= i < j < |out| ==> !Blocks(w, out[i], out[j])
  }

  ghost predicate AllAlive(w: World, out: seq<Cand>) {
    forall i :: 0 <= i < |out| ==> Alive(w, out[i])
  }

  ghost predicate AllWithin(out: seq<Cand>, d: real) {
    forall i :: 0 <= i < |out| ==> out[i].dist <= d
  }

  /** Why a candidate needs no place among the chosen: it has one, it is stale, or a chosen one blocks it. */
  ghost predicate Settled(w: World, out: seq<Cand>, c: Cand) {
    c in out || !Alive(w, c) || BlockedBy(w, out, c)
  }

  /** The choice `out`, in the order in which it was made, of at most `m` out of `all`. */
  ghost predicate Selected(w: World, all: multiset<Cand>, out: seq<Cand>, m: nat) {
    && |out| <= m && multiset(out) <= all && AllAlive(w, out) && NearFirst(out) && Diverse(w, out)
    && (forall c :: c in all ==> Settled(w, out, c) || (|out| == m && AllWithin(out, c.dist)))
  }

  /** The choice includes one of the nearest candidates that resolve. */
  lemma SelectedNearest(w: World, all: multiset<Cand>, out: seq<Cand>, m: nat, c: Cand)
    requires Selected(w, all, out, m) && m > 0 && c in all && Alive(w, c)
    ensures out != [] && out[0].dist <= c.dist
  {
    hide Blocks, Alive;
    if c in out {
      var i :| 0 <= i < |out| && out[i] == c;
    } else if BlockedBy(w, out, c) {
      var i :| 0 <= i < |out| && out[i].dist <= c.dist && Blocks(w, out[i], c);
    } else {
      assert AllWithin(out, c.dist);
    }
  }

  /** No chosen candidate lies closer to one chosen before it than to the node that chooses, and each candidate that
      resolves is chosen, or lies closer to a chosen one, or no nearer than any of the `m` chosen. */
  lemma SelectedApart(w: World, all: multiset<Cand>, out: seq<Cand>, m: nat, c: Cand)
    requires Selected(w, all, out, m)
    ensures forall i, j :: 0 <= i < j < |out| ==> w.dist(VecOf(w, out[j]), VecOf(w, out[i])) >= out[j].dist
    ensures c in all && Resolves(w.gens, Handle(c.slot, c.gen)) && c !in out ==>
              || (exists i :: 0 <= i < |out| && out[i].dist <= c.dist && w.dist(VecOf(w, c), VecOf(w, out[i])) < c.dist)
              || (|out| == m && forall i :: 0 <= i < |out| ==> out[i].dist <= c.dist)
  {
    hide Resolves, VecOf;
    forall i, j | 0 <= i < j < |out| ensures w.dist(VecOf(w, out[j]), VecOf(w, out[i])) >= out[j].dist {
      assert !Blocks(w, out[i], out[j]);
    }
    if c in all && Resolves(w.gens, Handle(c.slot, c.gen)) && BlockedBy(w, out, c) {
      var i :| 0 <= i < |out| && out[i].dist <= c.dist && Blocks(w, out[i], c);
      assert w.dist(VecOf(w, c), VecOf(w, out[i])) < c.dist;
    }
  }

  /** While the candidates are taken out nearest first: what is left, what is chosen, and how far it has got. */
  ghost predicate Choosing(w: World, all: multiset<Cand>, left: multiset<Cand>, out: seq<Cand>, m: nat, d: real) {
    && |out| <= m && left <= all && multiset(out) <= all - left
    && AllAlive(w, out) && NearFirst(out) && Diverse(w, out) && AllWithin(out, d)
    && (forall c :: c in left ==> d <= c.dist)
    && (forall c :: c in all - left ==> Settled(w, out, c))
  }

  lemma ChoosingDone(w: World, all: multiset<Cand>, left: multiset<Cand>, out: seq<Cand>, m: nat, d: real)
    requires Choosing(w, all, left, out, m, d) && (left == multiset{} || |out| == m)
    ensures Selected(w, all, out, m)
  {
    hide Alive, Blocks, BlockedBy, AllAlive, NearFirst, Diverse, Settled;
    forall c | c in all ensures Settled(w, out, c) || (|out| == m && AllWithin(out, c.dist)) {
      if c in left { WithinMore(out, d, c.dist); } else { assert c in all - left; }
    }
  }

  lemma WithinMore(out: seq<Cand>, d: real, e: real)
    requires AllWithin(out, d) && d <= e
    ensures AllWithin(out, e)
  {
  }

  /** The nearest candidate left is taken out and chosen. */
  lemma ChooseOne(w: World, all: multiset<Cand>, left: multiset<Cand>, out: seq<Cand>, m: nat, d: real, c: Cand)
    requires Choosing(w, all, left, out, m, d) && c in left && |out| < m && Alive(w, c)
    requires forall x :: x in left ==> c.dist <= x.dist
    requires forall i :: 0 <= i < |out| ==> !Blocks(w, out[i], c)
    ensures Choosing(w, all, left - multiset{c}, out + [c], m, c.dist)
  {
    hide Alive, Blocks;
    var out2 := out + [c];
    assert multiset(out2) == multiset(out) + multiset{c};
    forall x | x in all - (left - multiset{c}) ensures Settled(w, out2, x) {
      if x == c { assert out2[|out|] == c; } else { assert x in all - left; SettledMore(w, out, c, x); }
    }
  }

  lemma SettledMore(w: World, out: seq<Cand>, c: Cand, x: Cand)
    requires Settled(w, out, x)
    ensures Settled(w, out + [c], x)
  {
    hide Alive, Blocks;
    if BlockedBy(w, out, x) {
      var i :| 0 <= i < |out| && out[i].dist <= x.dist && Blocks(w, out[i], x);
      assert (out + [c])[i] == out[i];
    }
  }

  /** The nearest candidate left is taken out and passed over. */
  lemma PassOver(w: World, all: multiset<Cand>, left: multiset<Cand>, out: seq<Cand>, m: nat, d: real, c: Cand)
    requires Choosing(w, all, left, out, m, d) && c in left
    requires forall x :: x in left ==> c.dist <= x.dist
    requires !Alive(w, c) || exists i :: 0 <= i < |out| && Blocks(w, out[i], c)
    ensures Choosing(w, all, left - multiset{c}, out, m, c.dist)
  {
    hide Alive, Blocks, AllAlive, NearFirst, Diverse;
    WithinMore(out, d, c.dist);
    assert Settled(w, out, c);
    forall x | x in all - (left - multiset{c}) ensures Settled(w, out, x) {
      if x != c { assert x in all - left; }
    }
  }

  lemma ChoosingStart(w: World, all: multiset<Cand>, m: nat, d: real)
    requires forall c :: c in all ==> d <= c.dist
    ensures Choosing(w, all, all, [], m, d)
  {
  }

  /** A distance below all candidates. */
  lemma {:induction false} LowBound(s: seq<Cand>) returns (d: real)
    ensures forall c :: c in s ==> d <= c.dist
  {
    if s == [] {
      d := 0.0;
    } else {
      d := LowBound(s[1..]);
      if s[0].dist < d { d := s[0].dist; }
      assert s == [s[0]] + s[1..];
    }
  }

  /** The arena and the distance function as this choice sees them. */
  ghost function Seen(arena: Arena, dist: (int, int) -> real): World
    reads arena.nodes, arena.gens
  {
    World(arena.gens[..], arena.nodes[..], dist)
  }

  /** The top candidate is moved from one queue to the other. */
  method MoveOne(from: Pq, to: Pq)
    requires from.Valid() && to.Valid() && from != to && from.elems != to.elems && from.size > 0
    modifies from, from.elems, to, to.elems
    ensures from.Valid() && to.Valid() && from.elems == old(from.elems) && (to.elems == old(to.elems) || fresh(to.elems))
    ensures multiset(to.Items()) + multiset(from.Items()) == old(multiset(to.Items()) + multiset(from.Items()))
    ensures from.size == old(from.size) - 1
  {
    hide Heap, Above;
    var ok, c := from.Pop();
    to.Push(c);
  }

  /** All candidates are moved from one queue to the other. */
  method Refill(from: Pq, to: Pq)
    requires from.Valid() && to.Valid() && from != to && from.elems != to.elems && to.Items() == []
    modifies from, from.elems, to, to.elems
    ensures from.Valid() && to.Valid() && from.Items() == [] && multiset(to.Items()) == old(multiset(from.Items()))
    ensures from.elems == old(from.elems) && (to.elems == old(to.elems) || fresh(to.elems))
  {
    hide Heap, Above;
    while from.size > 0
      invariant from.Valid() && to.Valid() && from.elems == old(from.elems) && (to.elems == old(to.elems) || fresh(to.elems))
      invariant multiset(to.Items()) + multiset(from.Items()) == old(multiset(from.Items()))
      decreases from.size
    {
      MoveOne(from, to);
    }
  }

  /** Whether the candidate lies closer to one already chosen than to the node that chooses. */
  method Crowded(arena: Arena, dist: (int, int) -> real, chosen: Pq, c: Cand) returns (r: bool)
    requires arena.Valid() && chosen.Valid() && Alive(Seen(arena, dist), c)
    ensures r <==> exists x :: x in chosen.Items() && Blocks(Seen(arena, dist), x, c)
  {
    hide Heap, SlotsOK;
    var vec := arena.nodes[c.slot].vec;
    var i := 0;
    while i < chosen.size
      invariant 0 <= i <= chosen.size
      invariant forall j :: 0 <= j < i ==> !Blocks(Seen(arena, dist), chosen.Items()[j], c)
    {
      var x := chosen.elems[i];
      assert chosen.Items()[i] == x;
      var node := arena.GetNode(Handle(x.slot, x.gen));
      if node.Ok? {
        if dist(vec, arena.nodes[node.value].vec) < c.dist {
          assert x in chosen.Items() && Blocks(Seen(arena, dist), x, c);
          return true;
        }
      }
      i := i + 1;
    }
    r := false;
  }

  /** The chosen neighbours, as a queue with the furthest on top. The candidates are used up. */
  method SelectNeighbors(arena: Arena, dist: (int, int) -> real, cands: Pq, m: nat) returns (chosen: Pq, ghost out: seq<Cand>)
    requires arena.Valid() && cands.Valid() && m > 0
    requires Foreign(arena, cands.elems)
    modifies cands, cands.elems
    ensures cands.Valid() && cands.Items() == [] && cands.elems == old(cands.elems)
    ensures fresh(chosen) && fresh(chosen.elems) && chosen.Valid() && chosen.isMax && multiset(chosen.Items()) == multiset(out)
    ensures Selected(Seen(arena, dist), old(multiset(cands.Items())), out, m)
  {
    hide Heap, Selected, Choosing, SlotsOK, Above;
    ghost var w, all := Seen(arena, dist), multiset(cands.Items());
    ghost var d := LowBound(cands.Items());
    ChoosingStart(w, all, m, d);
    out := [];
    chosen := new Pq(m, true);
    if cands.size == 0 {
      ChoosingDone(w, all, all, [], m, d);
      return;
    }
    var heap := new Pq(cands.size, false);
    Refill(cands, heap);
    while heap.size > 0
      invariant cands.Valid() && cands.Items() == [] && cands.elems == old(cands.elems)
      invariant heap.Valid() && chosen.Valid() && !heap.isMax && fresh(heap) && fresh(heap.elems) && fresh(chosen) && fresh(chosen.elems)
      invariant heap != chosen && heap.elems != chosen.elems && multiset(chosen.Items()) == multiset(out)
      invariant Choosing(w, all, multiset(heap.Items()), out, m, d)
      decreases heap.size
    {
      SameSize(chosen.Items(), out);
      if chosen.size >= m {
        FullChoice(w, all, multiset(heap.Items()), out, m, d);
        break;
      }
      out, d := ChooseNext(arena, dist, heap, chosen, m, w, all, out, d);
    }
    ChoosingDone(w, all, multiset(heap.Items()), out, m, d);
  }

  /** The nearest candidate left is taken out, and chosen unless it is stale or crowded. */
  method ChooseNext(arena: Arena, dist: (int, int) -> real, heap: Pq, chosen: Pq, m: nat,
      ghost w: World, ghost all: multiset<Cand>, ghost out: seq<Cand>, ghost d: real) returns (ghost out2: seq<Cand>, ghost d2: real)
    requires arena.Valid() && w == Seen(arena, dist) && |out| < m
    requires heap.Valid() && chosen.Valid() && !heap.isMax && heap != chosen && heap.elems != chosen.elems && heap.size > 0
    requires Foreign(arena, heap.elems) && Foreign(arena, chosen.elems)
    requires multiset(chosen.Items()) == multiset(out) && Choosing(w, all, multiset(heap.Items()), out, m, d)
    modifies heap, heap.elems, chosen, chosen.elems
    ensures heap.Valid() && chosen.Valid() && heap.elems == old(heap.elems) && (chosen.elems == old(chosen.elems) || fresh(chosen.elems))
    ensures multiset(chosen.Items()) == multiset(out2) && Choosing(w, all, multiset(heap.Items()), out2, m, d2)
    ensures heap.size == old(heap.size) - 1
  {
    hide Heap, Choosing, SlotsOK, Alive, Blocks, Above;
    ghost var left := multiset(heap.Items());
    var ok, c := heap.Pop();
    NearestLeft(left, c);
    var node := arena.GetNode(Handle(c.slot, c.gen));
    AliveIs(w, c);
    var crowded := true;
    if node.Ok? {
      crowded := Crowded(arena, dist, chosen, c);
      CrowdedIs(w, chosen.Items(), out, c);
    }
    out2, d2 := out, c.dist;
    if !crowded {
      ChooseOne(w, all, left, out, m, d, c);
      chosen.Push(c);
      out2 := out + [c];
    } else {
      PassOver(w, all, left, out, m, d, c);
    }
  }

  /** A queue's array is none of the arena's. */
  ghost predicate Foreign(arena: Arena, a: array<Cand>) {
    a as object != arena.nodes && a as object != arena.gens && a as object != arena.freeBuf
  }

  lemma AliveIs(w: World, c: Cand)
    ensures Alive(w, c) <==> Resolves(w.gens, Handle(c.slot, c.gen))
  {
  }

  lemma SameSize(a: seq<Cand>, b: seq<Cand>)
    requires multiset(a) == multiset(b)
    ensures |a| == |b|
  {
    assert |multiset(a)| == |a| && |multiset(b)| == |b|;
  }

  lemma FullChoice(w: World, all: multiset<Cand>, left: multiset<Cand>, out: seq<Cand>, m: nat, d: real)
    requires Choosing(w, all, left, out, m, d) && |out| >= m
    ensures |out| == m
  {
  }

  lemma NearestLeft(left: multiset<Cand>, c: Cand)
    requires c in left && forall x :: x in left ==> !Above(false, x, c)
    ensures forall x :: x in left ==> c.dist <= x.dist
  {
  }

  lemma CrowdedIs(w: World, a: seq<Cand>, out: seq<Cand>, c: Cand)
    requires multiset(a) == multiset(out)
    ensures (exists x :: x in a && Blocks(w, x, c)) <==> exists i :: 0 <= i < |out| && Blocks(w, out[i], c)
  {
    hide Blocks;
    forall x ensures x in a <==> x in out { assert x in a <==> x in multiset(a); assert x in out <==> x in multiset(out); }
  }
}
