/** Lock-free search beside one serialised writer. A reader takes one hop at a time: it reads the
    root, then in each node first finds the slot of its edge and later reads that slot, while the
    writer's publishes and in-place deletes run in between. Whatever it finally answers was the
    right answer at some moment between its start and its end, and it answers after a bounded number
    of hops. */
module ArtConcurrent {
  import opened Options
  import opened Bytes
  import opened ArtTrie
  import opened ArtTrieTheory
  import opened ArtNode
  import opened ArtStore
  import opened ArtStep
  import opened ArtIndex

  /** `Lost` is a read of an address that memory does not have, or of a slot a node does not have. */
  datatype Reader = Start | AtNode(x: Ptr, d: nat) | AtSlot(x: Ptr, i: nat, b: Byte, e: nat) | Done(res: Option<Val>) | Lost

  /** Where the node keeps the child of edge `b`: the scan of the keys, or the read of the index. */
  ghost function SlotNow(n: Node, b: Byte): Option<nat>
    requires Shape(n)
  {
    match n
    case LeafNode(_, _) => None
    case Node4(_, num, keys, _) => var i := KeyAt(keys, num, b, 0); if i < num then Some(i) else None
    case Node16(_, num, keys, _) => var i := KeyAt(keys, num, b, 0); if i < num then Some(i) else None
    case Node48(_, _, index, _) => if index[b] != 0 then Some(index[b] - 1) else None
    case Node256(_, _, _) => Some(b)
  }

  /** One hop of a search for `k`, reading the shared memory of this moment only. */
  ghost function Hop(s: Store, k: Key, r: Reader): Reader {
    match r
    case Start => if s.root == 0 then Done(None) else AtNode(s.root, 0)
    case AtNode(x, d) => if x in s.mem then HopNode(s.mem[x], x, k, d) else Lost
    case AtSlot(x, i, b, e) =>
      if x !in s.mem || s.mem[x].LeafNode? || i >= |s.mem[x].slots| then Lost
      else if s.mem[x].slots[i] == 0 then Done(None)
      else AtNode(s.mem[x].slots[i], e + 1)
    case _ => r
  }

  ghost function HopNode(n: Node, x: Ptr, k: Key, d: nat): Reader {
    if n.LeafNode? then Done(if n.key == k then Some(n.val) else None)
    else if !Shape(n) then Lost
    else if d > |k| || Agree(n.prefix, k, d) != |n.prefix| then Done(None)
    else
      var e := d + |n.prefix|;
      var b := EdgeByte(k, e);
      match SlotNow(n, b)
      case None => Done(None)
      case Some(i) => AtSlot(x, i, b, e)
  }

  /** What a search that ran in one instant would answer. */
  ghost function Answer(s: Store, k: Key): Option<Val> {
    if s.tree.None? then None else Lookup(s.tree.value, k, 0)
  }

  // ---------- A node the reader holds ----------

  /** The node `x` as the reader sees it at moment `t` is the node that stood at a path of `k` of
      length `d` at some moment `j` since `t0`; if that is past, the node cannot change any more. */
  ghost predicate Held(h: seq<Store>, t0: nat, t: nat, k: Key, x: Ptr, d: nat, j: nat, xpre: Key, xt: Trie)
    requires Run(h) && t < |h|
  {
    && t0 <= j <= t && GoodAt(h, j) && GoodAt(h, t)
    && Place(h[j], x, xpre, xt) && Through(xpre, k) && |xpre| == d
    && x in h[j].mem && x in h[t].mem && h[t].mem[x] == h[j].mem[x]
    && (j == t || xt.Leaf? || x !in Reach(h[t]))
  }

  ghost predicate GoodAt(h: seq<Store>, j: nat) {
    j < |h| && Good(h[j])
  }

  lemma {:induction false} RunGood(h: seq<Store>, j: nat)
    requires Run(h) && j < |h|
    ensures GoodAt(h, j)
  {
    hide Good;
    if j > 0 {
      assert StepOK(h[j - 1], h[j - 1 + 1]);
      StepEnds(h[j - 1], h[j]);
    }
  }

  lemma StepEnds(s: Store, s2: Store)
    requires StepOK(s, s2)
    ensures Good(s2)
  {
    hide Good;
  }

  /** A node in its place now is held. */
  lemma HeldNow(h: seq<Store>, t0: nat, t: nat, k: Key, x: Ptr, xpre: Key, xt: Trie)
    requires Run(h) && t0 <= t < |h| && GoodAt(h, t) && Place(h[t], x, xpre, xt) && Through(xpre, k)
    ensures Held(h, t0, t, k, x, |xpre|, t, xpre, xt)
  {
    hide At, Apart, WF, Loc, Through, Run, Foot;
    LocAt(h[t].mem, h[t].root, h[t].tree.value, [], x, xpre, xt);
    FootInMem(h[t].mem, h[t].root, h[t].tree.value, x);
  }

  /** A held node stays held across one write. */
  lemma HeldNext(h: seq<Store>, t0: nat, t: nat, k: Key, x: Ptr, d: nat, j: nat, xpre: Key, xt: Trie)
      returns (j2: nat, xt2: Trie)
    requires Run(h) && t + 1 < |h| && Held(h, t0, t, k, x, d, j, xpre, xt)
    ensures Held(h, t0, t + 1, k, x, d, j2, xpre, xt2) && (xt2.Leaf? <==> xt.Leaf?)
    ensures Ages(h[t].mem[x], h[t + 1].mem[x])
  {
    hide At, Apart, WF, Loc, Through, Foot, Good, Ages, Place;
    assert StepOK(h[t], h[t + 1]);
    var s, s2 := h[t], h[t + 1];
    StepEnds(s, s2);
    assert Ages(s.mem[x], s2.mem[x]);
    PlaceKind(h[j], x, xpre, xt);
    if xt.Leaf? {
      LeafKeeps(s.mem[x], s2.mem[x]);
      j2, xt2 := j, xt;
    } else if x !in Reach(s) || Frozen(s, s2, x) {
      assert Frozen(s, s2, x);
      j2, xt2 := j, xt;
    } else {
      assert Stays(s2, x, xpre);
      xt2 :| Place(s2, x, xpre, xt2);
      j2 := t + 1;
      PlaceKind(s2, x, xpre, xt2);
      InnerKeeps(s.mem[x], s2.mem[x]);
    }
  }

  lemma PlaceKind(s: Store, x: Ptr, xpre: Key, xt: Trie)
    requires Good(s) && Place(s, x, xpre, xt)
    ensures x in s.mem && s.mem[x].LeafNode? == xt.Leaf?
  {
    hide Apart, WF, Loc, Foot, At;
    LocAt(s.mem, s.root, s.tree.value, [], x, xpre, xt);
    SpotKind(s.mem, x, xt);
  }

  lemma LeafKeeps(n: Node, n2: Node)
    requires Ages(n, n2) && n.LeafNode?
    ensures n2 == n
  {
  }

  lemma InnerKeeps(n: Node, n2: Node)
    requires Ages(n, n2) && !n.LeafNode?
    ensures !n2.LeafNode? && n2.prefix == n.prefix
  {
  }

  /** A held node stays held for as long as the reader waits. */
  lemma {:induction false} HeldOn(h: seq<Store>, t0: nat, t: nat, u: nat, k: Key, x: Ptr, d: nat, j: nat, xpre: Key, xt: Trie)
      returns (j2: nat, xt2: Trie)
    requires Run(h) && t <= u < |h| && Held(h, t0, t, k, x, d, j, xpre, xt)
    ensures Held(h, t0, u, k, x, d, j2, xpre, xt2) && (xt2.Leaf? <==> xt.Leaf?)
    decreases u - t
  {
    hide Held, Run, Ages;
    if t == u {
      j2, xt2 := j, xt;
    } else {
      j2, xt2 := HeldNext(h, t0, t, k, x, d, j, xpre, xt);
      j2, xt2 := HeldOn(h, t0, t + 1, u, k, x, d, j2, xpre, xt2);
    }
  }

  // ---------- A slot the reader holds ----------

  /** The slot found for edge `b` still answers for that edge. */
  ghost predicate SlotFits(n: Node, b: Byte, i: nat) {
    && Shape(n)
    && match n
       case LeafNode(_, _) => false
       case Node4(_, num, keys, _) => i < num && i == KeyAt(keys, num, b, 0)
       case Node16(_, num, keys, _) => i < num && i == KeyAt(keys, num, b, 0)
       case Node48(_, _, index, slots) => i < 48 && (index[b] == i + 1 || (index[b] == 0 && slots[i] == 0))
       case Node256(_, _, _) => i == b
  }

  lemma SlotFound(n: Node, b: Byte, i: nat)
    requires Shape(n) && SlotNow(n, b) == Some(i)
    ensures SlotFits(n, b, i)
  {
  }

  lemma NoSlot(n: Node, b: Byte)
    requires Shape(n) && SlotNow(n, b) == None
    ensures Find(n, b) == 0
  {
  }

  /** Reading the slot later is reading the child of the edge then. */
  lemma SlotReads(n: Node, b: Byte, i: nat)
    requires SlotFits(n, b, i)
    ensures !n.LeafNode? && Shape(n) && i < |n.slots| && n.slots[i] == Find(n, b)
  {
  }

  lemma SlotKeeps(n: Node, n2: Node, b: Byte, i: nat)
    requires SlotFits(n, b, i) && Ages(n, n2) && Shape(n2)
    ensures SlotFits(n2, b, i)
  {
    hide KeyAt;
  }

  lemma SlotNext(h: seq<Store>, t0: nat, t: nat, k: Key, x: Ptr, d: nat, j: nat, xpre: Key, xt: Trie, b: Byte, i: nat)
      returns (j2: nat, xt2: Trie)
    requires Run(h) && t + 1 < |h| && Held(h, t0, t, k, x, d, j, xpre, xt) && xt.Inner?
    requires x in h[t].mem && SlotFits(h[t].mem[x], b, i)
    ensures Held(h, t0, t + 1, k, x, d, j2, xpre, xt2) && xt2.Inner? && x in h[t + 1].mem && SlotFits(h[t + 1].mem[x], b, i)
    ensures h[t + 1].mem[x].prefix == h[t].mem[x].prefix
  {
    hide Held, Run, Ages, SlotFits, Shape, At, WF, Good, Kids;
    j2, xt2 := HeldNext(h, t0, t, k, x, d, j, xpre, xt);
    HeldShape(h, t0, t, k, x, d, j, xpre, xt);
    HeldShape(h, t0, t + 1, k, x, d, j2, xpre, xt2);
    SlotKeeps(h[t].mem[x], h[t + 1].mem[x], b, i);
    InnerKeeps(h[t].mem[x], h[t + 1].mem[x]);
  }

  lemma {:induction false} SlotOn(h: seq<Store>, t0: nat, t: nat, u: nat, k: Key, x: Ptr, d: nat, j: nat, xpre: Key, xt: Trie, b: Byte, i: nat)
      returns (j2: nat, xt2: Trie)
    requires Run(h) && t <= u < |h| && Held(h, t0, t, k, x, d, j, xpre, xt) && xt.Inner?
    requires x in h[t].mem && SlotFits(h[t].mem[x], b, i)
    ensures Held(h, t0, u, k, x, d, j2, xpre, xt2) && xt2.Inner? && x in h[u].mem && SlotFits(h[u].mem[x], b, i)
    ensures h[u].mem[x].prefix == h[t].mem[x].prefix
    decreases u - t
  {
    hide Held, Run, Ages, SlotFits, Shape, At, WF, Good, Kids;
    if t == u {
      j2, xt2 := j, xt;
      HeldShape(h, t0, t, k, x, d, j, xpre, xt);
    } else {
      j2, xt2 := SlotNext(h, t0, t, k, x, d, j, xpre, xt, b, i);
      j2, xt2 := SlotOn(h, t0, t + 1, u, k, x, d, j2, xpre, xt2, b, i);
    }
  }

  /** What the reader sees of a held node is what stood in its place. */
  lemma HeldShape(h: seq<Store>, t0: nat, t: nat, k: Key, x: Ptr, d: nat, j: nat, xpre: Key, xt: Trie)
    requires Run(h) && t < |h| && Held(h, t0, t, k, x, d, j, xpre, xt)
    ensures j < |h| && Good(h[j]) && h[j].tree.Some? && x in h[t].mem && x in h[j].mem && h[t].mem[x] == h[j].mem[x]
    ensures At(h[j].mem, x, xt) && WF(xt, xpre) && h[t].mem[x].LeafNode? == xt.Leaf?
    ensures xt.Leaf? ==> h[t].mem[x] == LeafNode(xt.key, xt.val)
    ensures xt.Inner? ==> Shape(h[t].mem[x]) && h[t].mem[x].prefix == xt.prefix && Kids(h[t].mem[x]).Keys == xt.kids.Keys
  {
    hide At, Apart, WF, Loc, Through, Foot, Run, Shape, Kids;
    LocAt(h[j].mem, h[j].root, h[j].tree.value, [], x, xpre, xt);
    SpotKind(h[j].mem, x, xt);
  }

  /** Where the search stops at a held node, it answers for the moment at which the node stood there. */
  lemma HeldAnswer(h: seq<Store>, t0: nat, t: nat, k: Key, x: Ptr, d: nat, j: nat, xpre: Key, xt: Trie)
    requires Run(h) && t < |h| && Held(h, t0, t, k, x, d, j, xpre, xt) && ZeroFree(k)
    ensures t0 <= j <= t && Answer(h[j], k) == Lookup(xt, k, d)
  {
    hide At, Apart, WF, Loc, Through, Foot, Run, ZeroFree, Lookup;
    NoPathHere(k);
    LookupAt(h[j].mem, h[j].root, h[j].tree.value, [], x, xpre, xt, k);
  }

  lemma NoPathHere(k: Key)
    ensures Through([], k)
  {
  }

  /** The child read from a held node's slot is held. */
  lemma HeldKid(h: seq<Store>, t0: nat, t: nat, k: Key, x: Ptr, d: nat, j: nat, xpre: Key, xt: Trie, b: Byte)
      returns (j2: nat, kt: Trie)
    requires Run(h) && t < |h| && Held(h, t0, t, k, x, d, j, xpre, xt) && ZeroFree(k) && xt.Inner? && b in xt.kids
    requires d <= |k| && Agree(xt.prefix, k, d) == |xt.prefix| && b == EdgeByte(k, d + |xt.prefix|)
    requires x in h[t].mem && Shape(h[t].mem[x])
    ensures Held(h, t0, t, k, Find(h[t].mem[x], b), d + |xt.prefix| + 1, j2, ChildPath(xpre, xt.prefix, b), kt)
  {
    hide At, Apart, WF, Loc, Through, Foot, Run, ZeroFree, Held, Agree, EdgeByte, Shape, Find;
    HeldShape(h, t0, t, k, x, d, j, xpre, xt);
    HeldIs(h, t0, t, k, x, d, j, xpre, xt);
    InnerPath(xt, xpre);
    PrefixTest(xt.prefix, xpre, k);
    PathExtends(xpre + xt.prefix, k, b);
    LocKid(h[j].mem, h[j].root, h[j].tree.value, [], x, xpre, xt, b);
    HeldNow(h, t0, j, k, Kid(h[j].mem, x, b), ChildPath(xpre, xt.prefix, b), xt.kids[b]);
    j2, kt := HeldOn(h, t0, j, t, k, Kid(h[j].mem, x, b), d + |xt.prefix| + 1, j, ChildPath(xpre, xt.prefix, b), xt.kids[b]);
  }

  lemma HeldIs(h: seq<Store>, t0: nat, t: nat, k: Key, x: Ptr, d: nat, j: nat, xpre: Key, xt: Trie)
    requires Run(h) && t < |h| && Held(h, t0, t, k, x, d, j, xpre, xt)
    ensures t0 <= j <= t && GoodAt(h, j) && Place(h[j], x, xpre, xt) && Through(xpre, k) && |xpre| == d
  {
    hide Good, Place, Reach, Through;
  }

  // ---------- Whole searches ----------

  /** What a reader's state is worth at moment `t`. */
  ghost predicate Sound(h: seq<Store>, t0: nat, t: nat, k: Key, r: Reader)
    requires Run(h) && t < |h|
  {
    match r
    case Start => true
    case AtNode(x, d) => exists j, xpre, xt :: Held(h, t0, t, k, x, d, j, xpre, xt)
    case AtSlot(x, i, b, e) => exists d, j, xpre, xt :: Held(h, t0, t, k, x, d, j, xpre, xt) && SlotHeld(h[t], k, x, d, xt, i, b, e)
    case Done(res) => exists j :: t0 <= j <= t && res == Answer(h[j], k)
    case Lost => false
  }

  ghost predicate SlotHeld(s: Store, k: Key, x: Ptr, d: nat, xt: Trie, i: nat, b: Byte, e: nat) {
    && x in s.mem && xt.Inner? && SlotFits(s.mem[x], b, i) && !s.mem[x].LeafNode? && d <= |k|
    && Agree(s.mem[x].prefix, k, d) == |s.mem[x].prefix| && e == d + |s.mem[x].prefix| && b == EdgeByte(k, e)
  }

  /** Waiting keeps a reader sound. */
  lemma SoundOn(h: seq<Store>, t0: nat, t: nat, u: nat, k: Key, r: Reader)
    requires Run(h) && t <= u < |h| && Sound(h, t0, t, k, r)
    ensures Sound(h, t0, u, k, r)
  {
    hide Held, Run, SlotFits, Agree, EdgeByte, Answer;
    if r.AtNode? {
      var j, xpre, xt :| Held(h, t0, t, k, r.x, r.d, j, xpre, xt);
      var j2, xt2 := HeldOn(h, t0, t, u, k, r.x, r.d, j, xpre, xt);
    } else if r.AtSlot? {
      var d, j, xpre, xt :| Held(h, t0, t, k, r.x, d, j, xpre, xt) && SlotHeld(h[t], k, r.x, d, xt, r.i, r.b, r.e);
      var j2, xt2 := SlotOn(h, t0, t, u, k, r.x, d, j, xpre, xt, r.b, r.i);
      HeldShape(h, t0, u, k, r.x, d, j2, xpre, xt2);
      assert SlotHeld(h[u], k, r.x, d, xt2, r.i, r.b, r.e);
    }
  }

  /** Hopping keeps a reader sound. */
  lemma SoundHop(h: seq<Store>, t0: nat, t: nat, k: Key, r: Reader)
    requires Run(h) && t0 <= t < |h| && ZeroFree(k) && Sound(h, t0, t, k, r)
    ensures Sound(h, t0, t, k, Hop(h[t], k, r))
  {
    hide Held, Run, SlotFits, Agree, EdgeByte, Answer, ZeroFree, Shape, Find;
    if r.Start? {
      RunGood(h, t);
      SoundStart(h, t0, t, k);
    } else if r.AtNode? {
      var j, xpre, xt :| Held(h, t0, t, k, r.x, r.d, j, xpre, xt);
      SoundNode(h, t0, t, k, r.x, r.d, j, xpre, xt);
    } else if r.AtSlot? {
      var d, j, xpre, xt :| Held(h, t0, t, k, r.x, d, j, xpre, xt) && SlotHeld(h[t], k, r.x, d, xt, r.i, r.b, r.e);
      SoundSlot(h, t0, t, k, r, d, j, xpre, xt);
    }
  }

  lemma SoundStart(h: seq<Store>, t0: nat, t: nat, k: Key)
    requires Run(h) && t0 <= t < |h| && GoodAt(h, t)
    ensures Sound(h, t0, t, k, Hop(h[t], k, Start))
  {
    hide At, Apart, WF, Loc, Held, Run, Lookup;
    var s := h[t];
    RootNone(s.mem, s.root, s.tree);
    if s.tree.None? {
      assert Answer(h[t], k) == None;
    } else {
      NoPathHere(k);
      LocHere(s.mem, s.root, s.tree.value, []);
      HeldNow(h, t0, t, k, s.root, [], s.tree.value);
    }
  }

  lemma SoundNode(h: seq<Store>, t0: nat, t: nat, k: Key, x: Ptr, d: nat, j: nat, xpre: Key, xt: Trie)
    requires Run(h) && t0 <= t < |h| && ZeroFree(k) && Held(h, t0, t, k, x, d, j, xpre, xt)
    ensures Sound(h, t0, t, k, Hop(h[t], k, AtNode(x, d)))
  {
    hide Held, Run, SlotFits, Agree, EdgeByte, Answer, ZeroFree, Shape, Find, At, WF, Kids, SlotNow, Good;
    HeldShape(h, t0, t, k, x, d, j, xpre, xt);
    HeldAnswer(h, t0, t, k, x, d, j, xpre, xt);
    var n := h[t].mem[x];
    if xt.Inner? && d <= |k| && Agree(n.prefix, k, d) == |n.prefix| {
      var e := d + |n.prefix|;
      var b := EdgeByte(k, e);
      match SlotNow(n, b)
      case None =>
        NoSlot(n, b);
        KidsAre(n, b);
        assert b !in Kids(n).Keys;
      case Some(i) =>
        SlotFound(n, b, i);
        assert SlotHeld(h[t], k, x, d, xt, i, b, e);
    }
  }

  lemma SoundSlot(h: seq<Store>, t0: nat, t: nat, k: Key, r: Reader, d: nat, j: nat, xpre: Key, xt: Trie)
    requires Run(h) && t0 <= t < |h| && ZeroFree(k) && r.AtSlot? && Held(h, t0, t, k, r.x, d, j, xpre, xt)
    requires SlotHeld(h[t], k, r.x, d, xt, r.i, r.b, r.e)
    ensures Sound(h, t0, t, k, Hop(h[t], k, r))
  {
    hide Held, Run, SlotFits, Agree, EdgeByte, Answer, ZeroFree, Shape, Find, At, WF, Kids, SlotNow, Good;
    HeldShape(h, t0, t, k, r.x, d, j, xpre, xt);
    HeldAnswer(h, t0, t, k, r.x, d, j, xpre, xt);
    var n := h[t].mem[r.x];
    SlotReads(n, r.b, r.i);
    KidsAre(n, r.b);
    if n.slots[r.i] == 0 {
      assert r.b !in Kids(n).Keys;
    } else {
      assert r.b in Kids(n).Keys;
      var j2, kt := HeldKid(h, t0, t, k, r.x, d, j, xpre, xt, r.b);
    }
  }

  /** A search: hop `i` reads the memory of moment `ts[i]`, and moments never go back. */
  ghost predicate Search(h: seq<Store>, k: Key, ts: seq<nat>, rs: seq<Reader>) {
    && |rs| == |ts| + 1 && rs[0] == Start
    && (forall i :: 0 <= i < |ts| ==> ts[i] < |h| && rs[i + 1] == Hop(h[ts[i]], k, rs[i]))
    && (forall i, j :: 0 <= i <= j < |ts| ==> ts[i] <= ts[j])
  }

  lemma {:induction false} SearchSound(h: seq<Store>, k: Key, ts: seq<nat>, rs: seq<Reader>, n: nat)
    requires Run(h) && ZeroFree(k) && Search(h, k, ts, rs) && 0 < n <= |ts|
    ensures Sound(h, ts[0], ts[n - 1], k, rs[n])
  {
    hide Run, ZeroFree, Hop, Sound;
    if n == 1 {
      StartSound(h, ts[0], ts[0], k);
    } else {
      SearchSound(h, k, ts, rs, n - 1);
      SoundOn(h, ts[0], ts[n - 2], ts[n - 1], k, rs[n - 1]);
    }
    SoundHop(h, ts[0], ts[n - 1], k, rs[n - 1]);
  }

  lemma StartSound(h: seq<Store>, t0: nat, t: nat, k: Key)
    requires Run(h) && t < |h|
    ensures Sound(h, t0, t, k, Start)
  {
    hide Run;
  }

  /** Every lock-free search is linearizable: it never follows a dangling pointer, and its answer is the one
      the index held at a moment between the search's first and last read. */
  lemma SearchLinearizable(h: seq<Store>, k: Key, ts: seq<nat>, rs: seq<Reader>)
    requires Run(h) && ZeroFree(k) && Search(h, k, ts, rs) && ts != []
    ensures !rs[|ts|].Lost?
    ensures rs[|ts|].Done? ==> exists j :: ts[0] <= j <= ts[|ts| - 1] && rs[|ts|].res == Answer(h[j], k)
  {
    hide Run, ZeroFree, Search, Answer;
    SearchSound(h, k, ts, rs, |ts|);
  }

  /** Seen from outside: beside any operations whose writes are recorded as the index records them, a search answers
      from the map that some number of them leave, one between the number that had written when it began and the
      number that had when it ended. No other map is ever answered from, whatever an operation writes on its way. */
  lemma SearchAtomic(h: seq<Store>, ops: seq<Op>, shows: seq<nat>, k: Key, ts: seq<nat>, rs: seq<Reader>)
    requires Run(h) && Shown(h, ops, shows) && ZeroFree(k) && Search(h, k, ts, rs) && ts != [] && rs[|ts|].Done?
    ensures exists n :: shows[ts[0]] <= n <= shows[ts[|ts| - 1]] && n <= |ops| && rs[|ts|].res == Stored(RunMap(ops[..n]), k)
  {
    hide Run, ZeroFree, Answer, RunMap, Maps;
    SearchLinearizable(h, k, ts, rs);
    var j :| ts[0] <= j <= ts[|ts| - 1] && rs[|ts|].res == Answer(h[j], k);
    assert ShownAt(h[j], ops, shows[j]);
    StoredAnswer(h[j], RunMap(ops[..shows[j]]), k);
  }

  ghost function Stored(m: map<Key, Val>, k: Key): Option<Val> {
    if k in m then Some(m[k]) else None
  }

  lemma StoredAnswer(s: Store, m: map<Key, Val>, k: Key)
    requires Maps(s.tree, m) && ZeroFree(k)
    ensures Answer(s, k) == Stored(m, k)
  {
    hide Maps, ZeroFree;
    ContentsAnswer(s.tree, m, k);
  }

  // ---------- Every search ends ----------

  /** How far a reader has come: two hops on each level. */
  ghost function Progress(r: Reader): nat {
    match r
    case AtNode(_, d) => 2 * d + 1
    case AtSlot(_, _, _, e) => 2 * e + 2
    case _ => 0
  }

  lemma HopAdvances(s: Store, k: Key, r: Reader)
    requires !Hop(s, k, r).Done? && !Hop(s, k, r).Lost?
    ensures !r.Done? && !r.Lost? && Progress(Hop(s, k, r)) > Progress(r)
  {
    hide Agree, EdgeByte, Shape, SlotNow;
  }

  /** A sound reader stays on the path of its key. */
  lemma ProgressBounded(h: seq<Store>, t0: nat, t: nat, k: Key, r: Reader)
    requires Run(h) && t < |h| && Sound(h, t0, t, k, r)
    ensures Progress(r) <= 2 * |k| + 3
  {
    hide Run, Held, EdgeByte, SlotFits;
    if r.AtNode? {
      var j, xpre, xt :| Held(h, t0, t, k, r.x, r.d, j, xpre, xt);
      HeldIs(h, t0, t, k, r.x, r.d, j, xpre, xt);
    }
  }

  lemma {:induction false} HopsAdvance(h: seq<Store>, k: Key, ts: seq<nat>, rs: seq<Reader>, n: nat)
    requires Search(h, k, ts, rs) && n <= |ts| && !rs[n].Done? && !rs[n].Lost?
    ensures Progress(rs[n]) >= n
  {
    hide Hop;
    if n > 0 {
      assert rs[n - 1 + 1] == Hop(h[ts[n - 1]], k, rs[n - 1]);
      HopAdvances(h[ts[n - 1]], k, rs[n - 1]);
      HopsAdvance(h, k, ts, rs, n - 1);
    }
  }

  /** Readers are wait-free: whatever the writer does meanwhile, a search has its answer after two hops for
      each byte of its key and four more. */
  lemma SearchEnds(h: seq<Store>, k: Key, ts: seq<nat>, rs: seq<Reader>)
    requires Run(h) && ZeroFree(k) && Search(h, k, ts, rs) && |ts| >= 2 * |k| + 4
    ensures rs[|ts|].Done?
  {
    hide Run, ZeroFree, Hop, Sound, Progress;
    var n := |ts|;
    SearchSound(h, k, ts, rs, n);
    SoundFound(h, ts[0], ts[n - 1], k, rs[n]);
    if !rs[n].Done? {
      HopsAdvance(h, k, ts, rs, n);
      ProgressBounded(h, ts[0], ts[n - 1], k, rs[n]);
    }
  }

  lemma SoundFound(h: seq<Store>, t0: nat, t: nat, k: Key, r: Reader)
    requires Run(h) && t < |h| && Sound(h, t0, t, k, r)
    ensures !r.Lost?
  {
    hide Run, Held;
  }
}
