/** The writes that make the index change: swinging the root, swinging one child slot, and the
    in-place writes of the large nodes. Each keeps the memory a tree, never touches a node that
    is no longer reachable, and never moves an inner node. */
module ArtStep {
  import opened Options
  import opened Bytes
  import opened ArtTrie
  import opened ArtNode
  import opened ArtStore

  /** The shared memory at one moment, with the tree it stands for. */
  datatype Store = Store(mem: Mem, root: Ptr, tree: Option<Trie>)

  ghost predicate Good(s: Store) {
    && 0 !in s.mem
    && match s.tree
       case None => s.root == 0
       case Some(t) => At(s.mem, s.root, t) && Apart(s.mem, s.root, t) && WF(t, [])
  }

  /** The reachable nodes. */
  ghost function Reach(s: Store): set<Ptr>
    requires Good(s)
  {
    if s.tree.None? then {} else Foot(s.mem, s.root, s.tree.value)
  }

  /** The reachable node `x` has path `xpre` and subtree `xt`. */
  ghost predicate Place(s: Store, x: Ptr, xpre: Key, xt: Trie)
    requires Good(s)
  {
    s.tree.Some? && Loc(s.mem, s.root, s.tree.value, [], x, xpre, xt)
  }

  /** How one node may change: leaves never; kind, prefix and the keys of small nodes never; cleared slots
      of a Node48 never fill, and an index entry only disappears after its slot was cleared. */
  ghost predicate Ages(n: Node, n2: Node) {
    match n
    case LeafNode(_, _) => n2 == n
    case Node48(_, _, index, slots) =>
      && n2.Node48? && n2.prefix == n.prefix && |n2.index| == |index| && |n2.slots| == |slots|
      && (forall j :: 0 <= j < |slots| && slots[j] == 0 ==> n2.slots[j] == 0)
      && (forall b :: 0 <= b < |index| && n2.index[b] != index[b] ==>
            n2.index[b] == 0 && 0 < index[b] <= |slots| && slots[index[b] - 1] == 0)
    case Node4(_, _, _, _) => n2.Node4? && n2.prefix == n.prefix && n2.num == n.num && n2.keys == n.keys
    case Node16(_, _, _, _) => n2.Node16? && n2.prefix == n.prefix && n2.num == n.num && n2.keys == n.keys
    case Node256(_, _, _) => n2.Node256? && n2.prefix == n.prefix
  }

  lemma AgesSelf(n: Node)
    ensures Ages(n, n)
  {
  }

  ghost predicate Aged(m: Mem, m2: Mem) {
    forall y :: y in m ==> y in m2 && Ages(m[y], m2[y])
  }

  ghost predicate Frozen(s: Store, s2: Store, y: Ptr)
    requires Good(s) && Good(s2)
  {
    y in s.mem && y in s2.mem && s2.mem[y] == s.mem[y] && y !in Reach(s2)
  }

  /** What readers may rely on across one write. */
  ghost predicate StepOK(s: Store, s2: Store) {
    && Good(s) && Good(s2) && Aged(s.mem, s2.mem)
    && (forall y :: y in s.mem && y !in Reach(s) ==> Frozen(s, s2, y))
    && (forall y, ypre, yt :: Place(s, y, ypre, yt) && yt.Inner? ==> Frozen(s, s2, y) || Stays(s2, y, ypre))
  }

  ghost predicate Stays(s2: Store, y: Ptr, ypre: Key)
    requires Good(s2)
  {
    exists yt2 :: Place(s2, y, ypre, yt2)
  }

  // ---------- A new subtree for an old one ----------

  /** The tree at `q` in `m2` is made of new nodes and of nodes of the tree at `x` in `m`. */
  ghost predicate Graft(m: Mem, m2: Mem, x: Ptr, xt: Trie, q: Ptr, u: Trie) {
    && At(m, x, xt) && At(m2, q, u) && Apart(m2, q, u)
    && (forall y :: y in Foot(m2, q, u) ==> y in Foot(m, x, xt) || y !in m)
  }

  /** It can take that tree's place: inner nodes of the old tree that it keeps are where they were. */
  ghost predicate Built(m: Mem, m2: Mem, x: Ptr, xt: Trie, xpre: Key, q: Ptr, u: Trie) {
    && Graft(m, m2, x, xt, q, u)
    && (forall y, ypre, yt :: Loc(m2, q, u, xpre, y, ypre, yt) && yt.Inner? && y in m ==> Loc(m, x, xt, xpre, y, ypre, yt))
  }

  /** Memory after a new subtree was linked from slot `b` of the node at `par`. */
  ghost predicate Linked(m: Mem, m2: Mem, par: Ptr, b: Byte, q: Ptr) {
    && par in m && par in m2 && Shape(m[par]) && Find(m[par], b) != 0 && q != 0
    && m2[par] == SetChild(m[par], b, q)
    && (forall y :: y in m && y != par ==> y in m2 && m2[y] == m[y])
  }

  lemma LinkedAges(m: Mem, m2: Mem, par: Ptr, b: Byte, q: Ptr)
    requires Linked(m, m2, par, b, q)
    ensures Aged(m, m2)
  {
    hide Find, KeyAt;
    forall y | y in m ensures y in m2 && Ages(m[y], m2[y]) {
      if y != par { AgesSelf(m[y]); } else { SetAges(m[par], b, q); }
    }
  }

  lemma SetAges(n: Node, b: Byte, q: Ptr)
    requires Shape(n) && Find(n, b) != 0
    ensures Ages(n, SetChild(n, b, q))
  {
    hide KeyAt;
  }

  lemma LinkedKids(m: Mem, m2: Mem, par: Ptr, b: Byte, q: Ptr)
    requires Linked(m, m2, par, b, q)
    ensures Shape(m2[par]) && Kids(m2[par]).Keys == Kids(m[par]).Keys && m2[par].prefix == m[par].prefix
    ensures m2[par].LeafNode? == m[par].LeafNode?
    ensures forall c :: Kid(m2, par, c) == if c == b then q else Kid(m, par, c)
  {
    hide KeyAt, Kids;
    SetChildKids(m[par], b, q);
    SetChildFinds(m[par], b, q);
    KidsAre(m[par], b);
  }

  /** Linking a built subtree into a parent's slot. */
  lemma ReplaceKid(m: Mem, m2: Mem, par: Ptr, pt: Trie, b: Byte, q: Ptr, u: Trie)
    requires At(m, par, pt) && Apart(m, par, pt) && pt.Inner? && b in pt.kids
    requires Linked(m, m2, par, b, q)
    requires Graft(m, m2, Kid(m, par, b), pt.kids[b], q, u)
    ensures var s := Inner(pt.prefix, pt.kids[b := u]);
            && At(m, Kid(m, par, b), pt.kids[b]) && At(m2, q, u)
            && At(m2, par, s) && Apart(m2, par, s)
            && Foot(m2, par, s) == Foot(m, par, pt) - Foot(m, Kid(m, par, b), pt.kids[b]) + Foot(m2, q, u)
  {
    hide Shape, Find, Kids, Union, Disjoint, Foot, Feet, Apart, ChildPath, SetChild, Loc;
    var s := Inner(pt.prefix, pt.kids[b := u]);
    LinkedKids(m, m2, par, b, q);
    assert s.kids.Keys == pt.kids.Keys;
    FootKid(m, par, pt, b);
    forall c | c in pt.kids && c != b
      ensures At(m2, Kid(m, par, c), pt.kids[c]) && Apart(m2, Kid(m, par, c), pt.kids[c])
      ensures At(m, Kid(m, par, c), pt.kids[c]) && Foot(m2, Kid(m, par, c), pt.kids[c]) == Foot(m, Kid(m, par, c), pt.kids[c])
    {
      OtherKidSame(m, m2, par, pt, c);
    }
    assert At(m2, par, s);
    ReplaceFeet(m, m2, par, pt, b, q, u);
  }

  lemma OtherKidSame(m: Mem, m2: Mem, par: Ptr, pt: Trie, c: Byte)
    requires At(m, par, pt) && Apart(m, par, pt) && pt.Inner? && c in pt.kids
    requires forall y :: y in m && y != par ==> y in m2 && m2[y] == m[y]
    ensures At(m, Kid(m, par, c), pt.kids[c]) && SameOn(m, m2, Foot(m, Kid(m, par, c), pt.kids[c]))
    ensures At(m2, Kid(m, par, c), pt.kids[c]) && Apart(m2, Kid(m, par, c), pt.kids[c])
    ensures Foot(m2, Kid(m, par, c), pt.kids[c]) == Foot(m, Kid(m, par, c), pt.kids[c])
  {
    hide InnerAt, Kid, Foot, Apart, At;
    FootKid(m, par, pt, c);
    forall y | y in Foot(m, Kid(m, par, c), pt.kids[c]) ensures y in m && y != par {
      FootInMem(m, Kid(m, par, c), pt.kids[c], y);
    }
    Frame(m, m2, Kid(m, par, c), pt.kids[c]);
    FrameApart(m, m2, Kid(m, par, c), pt.kids[c]);
  }

  lemma ReplaceFeet(m: Mem, m2: Mem, par: Ptr, pt: Trie, b: Byte, q: Ptr, u: Trie)
    requires At(m, par, pt) && Apart(m, par, pt) && pt.Inner? && b in pt.kids
    requires At(m, Kid(m, par, b), pt.kids[b]) && At(m2, q, u) && Apart(m2, q, u)
    requires forall y :: y in Foot(m2, q, u) ==> y in Foot(m, Kid(m, par, b), pt.kids[b]) || y !in m
    requires At(m2, par, Inner(pt.prefix, pt.kids[b := u]))
    requires forall c :: Kid(m2, par, c) == if c == b then q else Kid(m, par, c)
    requires forall c :: c in pt.kids && c != b ==>
               && At(m2, Kid(m, par, c), pt.kids[c]) && Apart(m2, Kid(m, par, c), pt.kids[c])
               && At(m, Kid(m, par, c), pt.kids[c]) && Foot(m2, Kid(m, par, c), pt.kids[c]) == Foot(m, Kid(m, par, c), pt.kids[c])
    ensures var s := Inner(pt.prefix, pt.kids[b := u]);
            Apart(m2, par, s) && Foot(m2, par, s) == Foot(m, par, pt) - Foot(m, Kid(m, par, b), pt.kids[b]) + Foot(m2, q, u)
  {
    hide Kid, At, Foot, Feet, Union, Disjoint;
    var s := Inner(pt.prefix, pt.kids[b := u]);
    FeetAre(m, par, pt);
    FeetAre(m2, par, s);
    var gone, here := Foot(m, Kid(m, par, b), pt.kids[b]), Foot(m2, q, u);
    assert Feet(m, par, pt)[b] - gone + here == here;
    assert Feet(m2, par, s) == Feet(m, par, pt)[b := Feet(m, par, pt)[b] - gone + here];
    forall y | y in Foot(m, par, pt) ensures y in m { FootInMem(m, par, pt, y); }
    SwapSet(Feet(m, par, pt), b, gone, here, par);
  }

  /** A parent slot is swung to a grafted subtree: memory still holds a tree, whatever its paths are. */
  lemma SwingKidTree(s: Store, m2: Mem, par: Ptr, ppre: Key, pt: Trie, b: Byte, q: Ptr, u: Trie)
    requires Good(s) && Place(s, par, ppre, pt) && pt.Inner? && b in pt.kids
    requires Linked(s.mem, m2, par, b, q) && Graft(s.mem, m2, Kid(s.mem, par, b), pt.kids[b], q, u)
    ensures par in Reach(s)
    ensures var t2 := PutAt(s.mem, s.root, s.tree.value, par, Inner(pt.prefix, pt.kids[b := u]));
            At(m2, s.root, t2) && Apart(m2, s.root, t2)
  {
    hide At, Apart, Loc, WF, Foot, PutAt, Kid, ChildPath, Confined;
    var v := Inner(pt.prefix, pt.kids[b := u]);
    LocAt(s.mem, s.root, s.tree.value, [], par, ppre, pt);
    ReplaceKid(s.mem, m2, par, pt, b, q, u);
    SwungConfined(s, m2, par, ppre, pt, b, q, u);
    Rewrite(s.mem, m2, s.root, s.tree.value, [], par, ppre, pt, v);
  }

  lemma SwungConfined(s: Store, m2: Mem, par: Ptr, ppre: Key, pt: Trie, b: Byte, q: Ptr, u: Trie)
    requires Good(s) && Place(s, par, ppre, pt) && pt.Inner? && b in pt.kids
    requires Linked(s.mem, m2, par, b, q) && Graft(s.mem, m2, Kid(s.mem, par, b), pt.kids[b], q, u)
    requires At(s.mem, par, pt) && Apart(s.mem, par, pt) && par in Foot(s.mem, s.root, s.tree.value)
    ensures Confined(s.mem, m2, s.root, s.tree.value, par, pt, Inner(pt.prefix, pt.kids[b := u]))
  {
    hide At, Apart, Loc, WF, Foot, PutAt, Kid, ChildPath;
    ReplaceKid(s.mem, m2, par, pt, b, q, u);
    SelfInFoot(s.mem, par, pt);
    FootKid(s.mem, par, pt, b);
    forall y | y in Foot(s.mem, s.root, s.tree.value) ensures y in s.mem { FootInMem(s.mem, s.root, s.tree.value, y); }
  }

  // ---------- The four kinds of writes ----------

  /** A root or a parent slot is swung to a built subtree: readers may carry on. */
  lemma SwingRoot(s: Store, s2: Store, u: Trie)
    requires Good(s) && s.tree.Some? && 0 !in s2.mem
    requires forall y :: y in s.mem ==> y in s2.mem && s2.mem[y] == s.mem[y]
    requires Built(s.mem, s2.mem, s.root, s.tree.value, [], s2.root, u) && WF(u, []) && s2.tree == Some(u)
    ensures StepOK(s, s2)
  {
    hide At, Apart, Foot, Loc, WF, Ages;
    forall y | y in s.mem ensures y in s2.mem && Ages(s.mem[y], s2.mem[y]) { AgesSelf(s.mem[y]); }
    forall y, ypre, yt | Place(s, y, ypre, yt) && yt.Inner? ensures Frozen(s, s2, y) || Stays(s2, y, ypre) {
      LocAt(s.mem, s.root, s.tree.value, [], y, ypre, yt);
      FootInMem(s.mem, s.root, s.tree.value, y);
      InnerNode(s.mem, y, yt);
      if y in Reach(s2) {
        var zpre, zt := FootLoc(s2.mem, s2.root, u, [], y);
        KeptPlace(s.mem, s2.mem, s.root, s.tree.value, [], s2.root, u, y, ypre, yt, zpre, zt);
        assert Place(s2, y, zpre, zt);
      }
    }
  }

  /** An inner node that a built subtree kept is at its old path. */
  lemma KeptPlace(m: Mem, m2: Mem, x: Ptr, xt: Trie, xpre: Key, q: Ptr, u: Trie, y: Ptr, ypre: Key, yt: Trie, zpre: Key, zt: Trie)
    requires Built(m, m2, x, xt, xpre, q, u) && Apart(m, x, xt) && y in m
    requires Loc(m, x, xt, xpre, y, ypre, yt) && yt.Inner? && Loc(m2, q, u, xpre, y, zpre, zt)
    requires y in m2 && !m2[y].LeafNode?
    ensures zpre == ypre
  {
    hide Apart, Foot, Loc, WF, InnerAt, Kid;
    LocAt(m2, q, u, xpre, y, zpre, zt);
    LocUnique(m, x, xt, xpre, y, ypre, yt, zpre, zt);
  }

  lemma InnerNode(m: Mem, y: Ptr, yt: Trie)
    requires At(m, y, yt) && yt.Inner?
    ensures y in m && !m[y].LeafNode? && Shape(m[y]) && m[y].prefix == yt.prefix && Kids(m[y]).Keys == yt.kids.Keys
  {
    hide Shape, Kids;
  }

  /** A rewrite below `x` that keeps inner nodes in place, seen from the whole tree. */
  ghost predicate Rewritten(s: Store, s2: Store, x: Ptr, xpre: Key, xt: Trie, v: Trie)
    requires Good(s)
  {
    && s.tree.Some? && Place(s, x, xpre, xt) && 0 !in s2.mem && s2.root == s.root
    && Aged(s.mem, s2.mem)
    && (forall y :: y in s.mem && y != x ==> y in s2.mem && s2.mem[y] == s.mem[y])
    && At(s.mem, x, xt) && At(s2.mem, x, v) && Apart(s2.mem, x, v)
    && (forall y :: y in Foot(s2.mem, x, v) ==> y in Foot(s.mem, x, xt) || y !in s.mem)
    && x in Foot(s.mem, s.root, s.tree.value)
    && s2.tree == Some(PutAt(s.mem, s.root, s.tree.value, x, v)) && WF(s2.tree.value, [])
  }

  ghost predicate KeepsPlaces(m: Mem, m2: Mem, x: Ptr, xpre: Key, xt: Trie, v: Trie)
    requires At(m, x, xt) && At(m2, x, v)
  {
    forall y, ypre, yt :: Loc(m, x, xt, xpre, y, ypre, yt) && yt.Inner? && y in Foot(m2, x, v) ==> Placed(m2, x, v, xpre, y, ypre)
  }

  ghost predicate Placed(m: Mem, x: Ptr, t: Trie, pre: Key, y: Ptr, ypre: Key)
    requires At(m, x, t)
  {
    exists zt :: Loc(m, x, t, pre, y, ypre, zt)
  }

  lemma RewrittenConfined(s: Store, s2: Store, x: Ptr, xpre: Key, xt: Trie, v: Trie)
    requires Good(s) && Rewritten(s, s2, x, xpre, xt, v)
    ensures Confined(s.mem, s2.mem, s.root, s.tree.value, x, xt, v)
  {
    hide At, Apart, Loc, WF, Aged, Foot, PutAt;
    SelfInFoot(s.mem, x, xt);
    var t := s.tree.value;
    forall y | y in Foot(s.mem, s.root, t) ensures y in s.mem { FootInMem(s.mem, s.root, t, y); }
  }

  lemma RewrittenGood(s: Store, s2: Store, x: Ptr, xpre: Key, xt: Trie, v: Trie)
    requires Good(s) && Rewritten(s, s2, x, xpre, xt, v)
    ensures Good(s2) && At(s2.mem, x, v) && At(s.mem, x, xt) && Foot(s.mem, x, xt) <= Reach(s)
    ensures Reach(s2) == Reach(s) - Foot(s.mem, x, xt) + Foot(s2.mem, x, v)
  {
    hide At, Apart, Loc, WF, Aged, Foot, Confined;
    RewrittenConfined(s, s2, x, xpre, xt, v);
    Rewrite(s.mem, s2.mem, s.root, s.tree.value, [], x, xpre, xt, v);
  }

  /** One inner node across such a rewrite: in place, or frozen for good. */
  lemma RewrittenStays(s: Store, s2: Store, x: Ptr, xpre: Key, xt: Trie, v: Trie, y: Ptr, ypre: Key, yt: Trie)
    requires Good(s) && Rewritten(s, s2, x, xpre, xt, v) && Good(s2)
    requires KeepsPlaces(s.mem, s2.mem, x, xpre, xt, v)
    requires Place(s, y, ypre, yt) && yt.Inner?
    ensures Frozen(s, s2, y) || Stays(s2, y, ypre)
  {
    hide At, Apart, Loc, WF, Aged, Foot, Confined, PutAt;
    var t := s.tree.value;
    LocAt(s.mem, s.root, t, [], y, ypre, yt);
    FootInMem(s.mem, s.root, t, y);
    RewrittenConfined(s, s2, x, xpre, xt, v);
    RewrittenGood(s, s2, x, xpre, xt, v);
    SelfInFoot(s2.mem, x, v);
    if y !in Foot(s.mem, x, xt) {
      var yt2 := RewriteKeeps(s.mem, s2.mem, s.root, t, [], x, xpre, xt, v, y, ypre, yt);
      assert Place(s2, y, ypre, yt2);
    } else if y in Foot(s2.mem, x, v) {
      var zpre, zt := FootLoc(s.mem, x, xt, xpre, y);
      LocInside(s.mem, s.root, t, [], x, xpre, xt, y, zpre, zt);
      LocUnique(s.mem, s.root, t, [], y, ypre, yt, zpre, zt);
      var wt :| Loc(s2.mem, x, v, xpre, y, ypre, wt);
      RewriteNew(s.mem, s2.mem, s.root, t, [], x, xpre, xt, v, y, ypre, wt);
      assert Place(s2, y, ypre, wt);
    }
  }

  /** A place below a place is a place. */
  lemma {:induction false} LocInside(m: Mem, p: Ptr, t: Trie, pre: Key, x: Ptr, xpre: Key, xt: Trie, y: Ptr, ypre: Key, yt: Trie)
    requires At(m, p, t) && Loc(m, p, t, pre, x, xpre, xt) && At(m, x, xt) && Loc(m, x, xt, xpre, y, ypre, yt)
    ensures Loc(m, p, t, pre, y, ypre, yt)
    decreases t
  {
    hide InnerAt, Kid, ChildPath, At, Loc;
    if !(x == p && xpre == pre && xt == t) {
      var b := LocBelow(m, p, t, pre, x, xpre, xt);
      LocInside(m, Kid(m, p, b), t.kids[b], ChildPath(pre, t.prefix, b), x, xpre, xt, y, ypre, yt);
      LocLift(m, p, t, pre, b, y, ypre, yt);
    }
  }

  lemma RewrittenOK(s: Store, s2: Store, x: Ptr, xpre: Key, xt: Trie, v: Trie)
    requires Good(s) && Rewritten(s, s2, x, xpre, xt, v)
    requires At(s.mem, x, xt) && At(s2.mem, x, v) && KeepsPlaces(s.mem, s2.mem, x, xpre, xt, v)
    ensures StepOK(s, s2)
  {
    hide At, Apart, Loc, WF, Aged, Foot, Confined, PutAt, KeepsPlaces;
    RewrittenGood(s, s2, x, xpre, xt, v);
    LocAt(s.mem, s.root, s.tree.value, [], x, xpre, xt);
    forall y | y in s.mem && y !in Reach(s) ensures Frozen(s, s2, y) {
    }
    forall y, ypre, yt | Place(s, y, ypre, yt) && yt.Inner? ensures Frozen(s, s2, y) || Stays(s2, y, ypre) {
      RewrittenStays(s, s2, x, xpre, xt, v, y, ypre, yt);
    }
  }

  /** A parent slot is swung to a built subtree: readers may carry on. */
  lemma SwingKid(s: Store, s2: Store, par: Ptr, ppre: Key, pt: Trie, b: Byte, q: Ptr, u: Trie)
    requires Good(s) && Place(s, par, ppre, pt) && pt.Inner? && b in pt.kids && 0 !in s2.mem && s2.root == s.root
    requires Linked(s.mem, s2.mem, par, b, q)
    requires Built(s.mem, s2.mem, Kid(s.mem, par, b), pt.kids[b], ChildPath(ppre, pt.prefix, b), q, u)
    requires par in Reach(s) && s2.tree == Some(PutAt(s.mem, s.root, s.tree.value, par, Inner(pt.prefix, pt.kids[b := u])))
    requires WF(s2.tree.value, [])
    ensures StepOK(s, s2)
  {
    hide At, Apart, Loc, WF, Aged, Foot, PutAt, Kid, ChildPath;
    var v := Inner(pt.prefix, pt.kids[b := u]);
    LocAt(s.mem, s.root, s.tree.value, [], par, ppre, pt);
    LinkedAges(s.mem, s2.mem, par, b, q);
    ReplaceKid(s.mem, s2.mem, par, pt, b, q, u);
    FootKid(s.mem, par, pt, b);
    forall y, ypre, yt | Loc(s.mem, par, pt, ppre, y, ypre, yt) && yt.Inner? && y in Foot(s2.mem, par, v)
      ensures Placed(s2.mem, par, v, ppre, y, ypre)
    {
      var zt := SwungPlace(s.mem, s2.mem, par, ppre, pt, b, q, u, y, ypre, yt);
    }
    RewrittenOK(s, s2, par, ppre, pt, v);
  }

  lemma SwungPlace(m: Mem, m2: Mem, par: Ptr, ppre: Key, pt: Trie, b: Byte, q: Ptr, u: Trie, y: Ptr, ypre: Key, yt: Trie)
      returns (zt: Trie)
    requires At(m, par, pt) && Apart(m, par, pt) && pt.Inner? && b in pt.kids && Linked(m, m2, par, b, q)
    requires Built(m, m2, Kid(m, par, b), pt.kids[b], ChildPath(ppre, pt.prefix, b), q, u)
    requires Loc(m, par, pt, ppre, y, ypre, yt) && yt.Inner?
    requires At(m2, par, Inner(pt.prefix, pt.kids[b := u])) && y in Foot(m2, par, Inner(pt.prefix, pt.kids[b := u]))
    ensures Loc(m2, par, Inner(pt.prefix, pt.kids[b := u]), ppre, y, ypre, zt)
  {
    hide At, Apart, Loc, Foot, Kid, ChildPath, SetChild, Shape, Find, Kids;
    var v := Inner(pt.prefix, pt.kids[b := u]);
    ReplaceKid(m, m2, par, pt, b, q, u);
    LinkedKids(m, m2, par, b, q);
    if y == par && ypre == ppre && yt == pt {
      zt := v;
      LocHere(m2, par, v, ppre);
    } else {
      var c := LocBelow(m, par, pt, ppre, y, ypre, yt);
      LocAt(m, Kid(m, par, c), pt.kids[c], ChildPath(ppre, pt.prefix, c), y, ypre, yt);
      FootKid(m, par, pt, c);
      if c != b {
        OtherKidSame(m, m2, par, pt, c);
        FrameLoc(m, m2, Kid(m, par, c), pt.kids[c], ChildPath(ppre, pt.prefix, c), y, ypre, yt);
        zt := yt;
      } else {
        var zpre;
        zpre, zt := FootLoc(m2, q, u, ChildPath(ppre, pt.prefix, b), y);
        FootInMem(m, par, pt, y);
        InnerNode(m, y, yt);
        assert m2[y] == m[y];
        KeptPlace(m, m2, Kid(m, par, b), pt.kids[b], ChildPath(ppre, pt.prefix, b), q, u, y, ypre, yt, zpre, zt);
      }
      LocLift(m2, par, v, ppre, c, y, ypre, zt);
    }
  }

  /** A node is changed in place: it may lose children, and nothing else about it changes for readers. */
  ghost predicate InPlace(m: Mem, m2: Mem, x: Ptr, xt: Trie, v: Trie) {
    && xt.Inner? && v.Inner? && v.prefix == xt.prefix && v.kids.Keys <= xt.kids.Keys
    && (forall c :: c in v.kids ==> v.kids[c] == xt.kids[c] && Kid(m2, x, c) == Kid(m, x, c))
    && x in m2 && InnerAt(m2[x], v)
    && (forall y :: y in m && y != x ==> y in m2 && m2[y] == m[y])
  }

  lemma InPlaceTree(m: Mem, m2: Mem, x: Ptr, xt: Trie, v: Trie)
    requires At(m, x, xt) && Apart(m, x, xt) && InPlace(m, m2, x, xt, v)
    ensures At(m2, x, v) && Apart(m2, x, v) && Foot(m2, x, v) <= Foot(m, x, xt)
  {
    hide Kid, Foot, Feet, Apart, InnerAt, Disjoint, Union;
    forall c | c in v.kids
      ensures At(m, Kid(m, x, c), xt.kids[c]) && At(m2, Kid(m, x, c), xt.kids[c]) && Apart(m2, Kid(m, x, c), xt.kids[c])
      ensures Foot(m2, Kid(m, x, c), xt.kids[c]) == Foot(m, Kid(m, x, c), xt.kids[c])
    {
      assert c in xt.kids.Keys;
      OtherKidSame(m, m2, x, xt, c);
    }
    InPlaceFeet(m, m2, x, xt, v);
  }

  lemma InPlaceFeet(m: Mem, m2: Mem, x: Ptr, xt: Trie, v: Trie)
    requires At(m, x, xt) && Apart(m, x, xt) && InPlace(m, m2, x, xt, v) && At(m2, x, v)
    requires forall c :: c in v.kids ==>
               && At(m, Kid(m, x, c), xt.kids[c]) && At(m2, Kid(m, x, c), xt.kids[c]) && Apart(m2, Kid(m, x, c), xt.kids[c])
               && Foot(m2, Kid(m, x, c), xt.kids[c]) == Foot(m, Kid(m, x, c), xt.kids[c])
    ensures Apart(m2, x, v) && Foot(m2, x, v) <= Foot(m, x, xt)
  {
    hide Kid, At, Foot, Feet, InnerAt;
    FeetAre(m, x, xt);
    FeetAre(m2, x, v);
    var f, g := Feet(m, x, xt), Feet(m2, x, v);
    forall c | c in g ensures c in f && g[c] == f[c] { assert c in v.kids && c in xt.kids.Keys; }
  }

  lemma InPlacePlaces(m: Mem, m2: Mem, x: Ptr, xpre: Key, xt: Trie, v: Trie)
    requires At(m, x, xt) && Apart(m, x, xt) && InPlace(m, m2, x, xt, v) && At(m2, x, v) && Foot(m2, x, v) <= Foot(m, x, xt)
    ensures KeepsPlaces(m, m2, x, xpre, xt, v)
  {
    hide At, Apart, Loc, Foot, Kid, ChildPath, InnerAt;
    forall y, ypre, yt | Loc(m, x, xt, xpre, y, ypre, yt) && yt.Inner? && y in Foot(m2, x, v)
      ensures Placed(m2, x, v, xpre, y, ypre)
    {
      if y == x && ypre == xpre && yt == xt {
        LocHere(m2, x, v, xpre);
      } else {
        var c := LocBelow(m, x, xt, xpre, y, ypre, yt);
        InPlaceKid(m, m2, x, xpre, xt, v, c, y, ypre, yt);
      }
    }
  }

  lemma InPlaceKid(m: Mem, m2: Mem, x: Ptr, xpre: Key, xt: Trie, v: Trie, c: Byte, y: Ptr, ypre: Key, yt: Trie)
    requires At(m, x, xt) && Apart(m, x, xt) && InPlace(m, m2, x, xt, v) && At(m2, x, v) && y in Foot(m2, x, v)
    requires c in xt.kids && At(m, Kid(m, x, c), xt.kids[c])
    requires Loc(m, Kid(m, x, c), xt.kids[c], ChildPath(xpre, xt.prefix, c), y, ypre, yt)
    ensures Loc(m2, x, v, xpre, y, ypre, yt)
  {
    hide At, Apart, Loc, Foot, Kid, ChildPath, InnerAt;
    LocAt(m, Kid(m, x, c), xt.kids[c], ChildPath(xpre, xt.prefix, c), y, ypre, yt);
    FootKid(m, x, xt, c);
    FootWhere(m2, x, v, y);
    var e :| e in v.kids && At(m2, Kid(m2, x, e), v.kids[e]) && y in Foot(m2, Kid(m2, x, e), v.kids[e]);
    assert e in xt.kids.Keys;
    OtherKidSame(m, m2, x, xt, e);
    if e != c { FootKids(m, x, xt, c, e); }
    FrameLoc(m, m2, Kid(m, x, c), xt.kids[c], ChildPath(xpre, xt.prefix, c), y, ypre, yt);
    LocLift(m2, x, v, xpre, c, y, ypre, yt);
  }

  /** An in-place write to a reachable node: readers may carry on. */
  lemma WriteInPlace(s: Store, s2: Store, x: Ptr, xpre: Key, xt: Trie, v: Trie)
    requires Good(s) && Place(s, x, xpre, xt) && InPlace(s.mem, s2.mem, x, xt, v) && 0 !in s2.mem && s2.root == s.root
    requires x in s.mem && Ages(s.mem[x], s2.mem[x])
    requires x in Reach(s) && s2.tree == Some(PutAt(s.mem, s.root, s.tree.value, x, v)) && WF(s2.tree.value, [])
    ensures StepOK(s, s2) && Place(s2, x, xpre, v)
  {
    hide At, Apart, Loc, WF, Foot, PutAt, KeepsPlaces, Kid, Ages, InnerAt;
    LocAt(s.mem, s.root, s.tree.value, [], x, xpre, xt);
    InPlaceTree(s.mem, s2.mem, x, xt, v);
    InPlacePlaces(s.mem, s2.mem, x, xpre, xt, v);
    forall y | y in s.mem ensures y in s2.mem && Ages(s.mem[y], s2.mem[y]) { AgesSelf(s.mem[y]); }
    RewrittenOK(s, s2, x, xpre, xt, v);
    RewrittenConfined(s, s2, x, xpre, xt, v);
    LocHere(s2.mem, x, v, xpre);
    RewriteNew(s.mem, s2.mem, s.root, s.tree.value, [], x, xpre, xt, v, x, xpre, v);
  }
}
