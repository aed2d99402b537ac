/** The branches of delete, each about the writes it makes: a smaller copy, the two forms of a
    collapse, and the in-place writes of the two large kinds. */
module ArtRemoval {
  import opened Options
  import opened Bytes
  import opened ArtTrie
  import opened ArtTrieDelete
  import opened ArtNode
  import opened ArtStore
  import opened ArtStep
  import opened ArtBuild
  import opened ArtDescent

  /** At the spot `w` stands the parent of the leaf that holds the key. */
  ghost predicate Found(s: Store, k: Key, w: Spot, b: Byte)
    requires Good(s)
  {
    OnPath(s, k, w) && Selects(w.nt, w.npre, k, b) && w.nt.kids[b].Leaf? && w.nt.kids[b].key == k
  }

  /** What lies behind the header of the copy that a collapse makes of the sibling. */
  ghost predicate CopiedBody(s: Store, w: Spot, b: Byte, body: Key) {
    && w.nt.Inner? && |w.nt.kids| == 2 && b in w.nt.kids
    && var o := Kid(s.mem, w.node, Sibling(w.nt.kids, b)); o in s.mem && body == Behind(Copied(s.mem[o]))
  }

  /** The same, told from the key that is deleted. */
  ghost predicate CollapseBody(s: Store, k: Key, body: Key)
    requires Good(s)
  {
    exists w, b :: Found(s, k, w, b) && CopiedBody(s, w, b, body)
  }

  /** The delete of a found key is the removal of the leaf from its parent. */
  lemma FoundDel(t: Trie, pre: Key, k: Key, b: Byte, body: Key)
    requires Selects(t, pre, k, b) && t.kids[b].Leaf? && t.kids[b].key == k
    ensures DelInner(t, k, |pre|, body) == Without(t, b, body)
    ensures (DelFits(t, k, |pre|) <==> Fits(t, b)) && (DelReads(t, k, |pre|, body) <==> Reads(t, b, body))
  {
    hide Agree, EdgeByte, Fits, Reads, Without;
  }

  lemma FoundTree(s: Store, k: Key, w: Spot, b: Byte, body: Key)
    requires Good(s) && ZeroFree(k) && Found(s, k, w, b)
    ensures s.tree.Some? && s.tree.value.Inner?
    ensures TreeWith(s, k, w, Without(w.nt, b, body)) == DelInner(s.tree.value, k, 0, body)
    ensures (DelFits(s.tree.value, k, 0) <==> Fits(w.nt, b)) && (DelReads(s.tree.value, k, 0, body) <==> Reads(w.nt, b, body))
    ensures Reads(w.nt, b, body) ==> WF(DelInner(s.tree.value, k, 0, body), [])
  {
    hide At, Apart, WF, Loc, Agree, EdgeByte, ZeroFree, DelInner, DelFits, DelReads, Fits, Reads, Without, TreeWith, OnPath;
    TreeWithDel(s, k, w, body);
    FoundDel(w.nt, w.npre, k, b, body);
  }

  lemma CountKids(n: Node, t: Trie)
    requires t.Inner? && Shape(n) && Kids(n).Keys == t.kids.Keys
    ensures |Kids(n)| == |t.kids|
  {
    hide Kids, Shape;
    assert |Kids(n).Keys| == |Kids(n)| && |t.kids.Keys| == |t.kids|;
  }

  // ---------- A smaller copy ----------

  lemma DeleteCopies(s: Store, m2: Mem, root2: Ptr, k: Key, w: Spot, b: Byte, q: Ptr, body: Key)
    requires Good(s) && Found(s, k, w, b) && Swung(s, m2, root2, w, q)
    requires |w.nt.kids| != 2 && Fresh(s.mem, m2, q)
    requires w.node in s.mem && Shape(s.mem[w.node])
    requires Shape(m2[q]) && !m2[q].LeafNode? && m2[q].prefix == w.nt.prefix && Kids(m2[q]) == Kids(s.mem[w.node]) - {b}
    ensures Fits(w.nt, b) && Built(s.mem, m2, w.node, w.nt, w.npre, q, Without(w.nt, b, body))
  {
    hide At, Apart, WF, Loc, Built, OnPath, Agree, EdgeByte, Kids, Shape, Recast;
    SpotIs(s, k, w);
    SwungSame(s, k, w, m2, root2, q);
    InnerNode(s.mem, w.node, w.nt);
    var v := Inner(w.nt.prefix, w.nt.kids - {b});
    assert v.kids.Keys == w.nt.kids.Keys - {b};
    assert Kids(m2[q]).Keys == Kids(s.mem[w.node]).Keys - {b};
    SameKidsRecast(s.mem, m2, w.node, w.nt, q, v);
    BuiltRecast(s.mem, m2, w.node, w.nt, w.npre, q, v);
  }

  // ---------- Collapse ----------

  lemma SiblingIs(kids: map<Byte, Trie>, b: Byte, c: Byte)
    requires |kids| == 2 && b in kids && c in kids && b != c
    ensures Sibling(kids, b) == c
  {
  }

  lemma DeleteCollapsesLeaf(s: Store, m2: Mem, root2: Ptr, k: Key, w: Spot, b: Byte, c: Byte, body: Key)
    requires Good(s) && Found(s, k, w, b) && Swung(s, m2, root2, w, Kid(s.mem, w.node, c))
    requires |w.nt.kids| == 2 && c in w.nt.kids && c != b && w.nt.kids[c].Leaf?
    ensures Fits(w.nt, b) && Built(s.mem, m2, w.node, w.nt, w.npre, Kid(s.mem, w.node, c), Without(w.nt, b, body))
  {
    hide At, Apart, WF, Loc, Built, OnPath, Agree, EdgeByte, Kid, Sibling;
    SpotIs(s, k, w);
    SwungSame(s, k, w, m2, root2, Kid(s.mem, w.node, c));
    SiblingIs(w.nt.kids, b, c);
    BuiltCollapseLeaf(s.mem, m2, w.node, w.nt, w.npre, c);
  }

  lemma DeleteCollapsesInner(s: Store, m2: Mem, root2: Ptr, k: Key, w: Spot, b: Byte, c: Byte, q: Ptr, body: Key)
    requires Good(s) && Found(s, k, w, b) && Swung(s, m2, root2, w, q)
    requires |w.nt.kids| == 2 && c in w.nt.kids && c != b && w.nt.kids[c].Inner? && Fresh(s.mem, m2, q)
    requires Kid(s.mem, w.node, c) in s.mem && Shape(s.mem[Kid(s.mem, w.node, c)])
    requires var n := s.mem[Kid(s.mem, w.node, c)];
             && !n.LeafNode? && Shape(m2[q]) && !m2[q].LeafNode? && Kids(m2[q]) == Kids(n)
             && m2[q].prefix == Merged(w.nt.prefix, c, n.prefix, body)
    ensures Graft(s.mem, m2, w.node, w.nt, q, Without(w.nt, b, body))
    ensures Reads(w.nt, b, body) ==> Built(s.mem, m2, w.node, w.nt, w.npre, q, Without(w.nt, b, body))
  {
    hide At, Apart, WF, Loc, Built, Graft, OnPath, Agree, EdgeByte, Kid, Sibling, Kids, Shape, Recast, Merged, Foot;
    SpotIs(s, k, w);
    SwungSame(s, k, w, m2, root2, q);
    SiblingIs(w.nt.kids, b, c);
    var p, o := Kid(s.mem, w.node, c), w.nt.kids[c];
    FootKid(s.mem, w.node, w.nt, c);
    InnerNode(s.mem, p, o);
    var v := Inner(Merged(w.nt.prefix, c, o.prefix, body), o.kids);
    SameKidsRecast(s.mem, m2, p, o, q, v);
    CollapseGraft(s.mem, m2, w.node, w.nt, c, q, v);
    if Reads(w.nt, b, body) {
      MergedPath(w.npre, w.nt.prefix, c, o.prefix, body);
      BuiltCollapseInner(s.mem, m2, w.node, w.nt, w.npre, c, q, v);
    }
  }

  // ---------- In place ----------

  /** Putting back the subtree that is there changes nothing. */
  lemma {:induction false} PutAtSame(m: Mem, p: Ptr, t: Trie, pre: Key, x: Ptr, xpre: Key, xt: Trie)
    requires At(m, p, t) && Apart(m, p, t) && Loc(m, p, t, pre, x, xpre, xt)
    ensures x in Foot(m, p, t) && PutAt(m, p, t, x, xt) == t
    decreases t
  {
    hide InnerAt, Kid, ChildPath, At, Foot, Loc, Apart;
    LocAt(m, p, t, pre, x, xpre, xt);
    if x == p {
      LocHere(m, p, t, pre);
      LocUnique(m, p, t, pre, x, xpre, xt, pre, t);
    } else {
      var b := LocBelow(m, p, t, pre, x, xpre, xt);
      LocAt(m, Kid(m, p, b), t.kids[b], ChildPath(pre, t.prefix, b), x, xpre, xt);
      FootKid(m, p, t, b);
      PutAtSame(m, Kid(m, p, b), t.kids[b], ChildPath(pre, t.prefix, b), x, xpre, xt);
      PutAtKid(m, p, t, x, xt, b);
    }
  }

  /** The first write of an in-place delete: the child slot is cleared, and the key is gone. */
  lemma DeleteClears(s: Store, s2: Store, k: Key, w: Spot, b: Byte, body: Key)
    requires Good(s) && ZeroFree(k) && Found(s, k, w, b) && |w.nt.kids| != 2
    requires w.node in s.mem && Shape(s.mem[w.node]) && Find(s.mem[w.node], b) != 0
    requires s2.mem == s.mem[w.node := SetChild(s.mem[w.node], b, 0)] && s2.root == s.root
    requires s.tree.Some? && s.tree.value.Inner? && s2.tree == Some(DelInner(s.tree.value, k, 0, body))
    ensures StepOK(s, s2) && Place(s2, w.node, w.npre, Inner(w.nt.prefix, w.nt.kids - {b}))
    ensures DelFits(s.tree.value, k, 0)
  {
    hide At, Apart, WF, Loc, OnPath, Agree, EdgeByte, ZeroFree, Through, DelInner, DelFits, DelReads, PutAt, Foot, InPlace, Ages, StepOK;
    SpotIs(s, k, w);
    FoundTree(s, k, w, b, body);
    FoundDel(w.nt, w.npre, k, b, body);
    PathShorter([], [], k) by { PrefixOfPath([], k, 0); }
    FoundAt(s, k, w);
    DelAt(s.mem, s.root, s.tree.value, [], w.node, w.npre, w.nt, k, body);
    var v := Inner(w.nt.prefix, w.nt.kids - {b});
    SetAges(s.mem[w.node], b, 0);
    ClearedInPlace(s.mem, s2.mem, w.node, w.nt, b);
    WriteInPlace(s, s2, w.node, w.npre, w.nt, v);
  }

  lemma FoundAt(s: Store, k: Key, w: Spot)
    requires Good(s) && OnPath(s, k, w)
    ensures Place(s, w.node, w.npre, w.nt)
  {
    hide ByEdge, Through;
  }

  lemma ClearedInPlace(m: Mem, m2: Mem, x: Ptr, xt: Trie, b: Byte)
    requires At(m, x, xt) && xt.Inner? && b in xt.kids && x in m && Shape(m[x]) && Find(m[x], b) != 0
    requires m2 == m[x := SetChild(m[x], b, 0)]
    ensures InPlace(m, m2, x, xt, Inner(xt.prefix, xt.kids - {b}))
  {
    hide Shape, Find, Kids, At, SetChild;
    InnerNode(m, x, xt);
    SetChildKids(m[x], b, 0);
    SetChildFinds(m[x], b, 0);
    SetChildSame(m[x], b, 0);
    assert Kids(m2[x]).Keys == Kids(m[x]).Keys - {b};
    assert (xt.kids - {b}).Keys == xt.kids.Keys - {b};
  }

  lemma SetChildSame(n: Node, b: Byte, p: Ptr)
    requires Shape(n) && Find(n, b) != 0
    ensures SetChild(n, b, p).prefix == n.prefix && SetChild(n, b, p).LeafNode? == n.LeafNode?
  {
    hide SlotOf;
  }

  /** A further write in place that changes no child: the index entry, or the count. */
  lemma QuietWrite(s: Store, s2: Store, x: Ptr, xpre: Key, xt: Trie)
    requires Good(s) && Place(s, x, xpre, xt) && xt.Inner? && x in s.mem && x in s2.mem
    requires s2 == s.(mem := s.mem[x := s2.mem[x]])
    requires Shape(s.mem[x]) && Shape(s2.mem[x]) && !s.mem[x].LeafNode? && !s2.mem[x].LeafNode? && s2.mem[x].prefix == s.mem[x].prefix
    requires Kids(s2.mem[x]) == Kids(s.mem[x]) && Ages(s.mem[x], s2.mem[x])
    ensures StepOK(s, s2) && Place(s2, x, xpre, xt)
  {
    hide At, Apart, WF, Loc, PutAt, Foot, InPlace, Ages, StepOK, Kids, Shape;
    LocAt(s.mem, s.root, s.tree.value, [], x, xpre, xt);
    PutAtSame(s.mem, s.root, s.tree.value, [], x, xpre, xt);
    QuietInPlace(s.mem, s2.mem, x, xt);
    WriteInPlace(s, s2, x, xpre, xt, xt);
  }

  lemma QuietInPlace(m: Mem, m2: Mem, x: Ptr, xt: Trie)
    requires At(m, x, xt) && xt.Inner? && x in m && x in m2 && m2 == m[x := m2[x]]
    requires Shape(m[x]) && Shape(m2[x]) && !m[x].LeafNode? && !m2[x].LeafNode? && m2[x].prefix == m[x].prefix && Kids(m2[x]) == Kids(m[x])
    ensures InPlace(m, m2, x, xt, xt)
  {
    hide Shape, Find, Kids, At;
    InnerNode(m, x, xt);
    forall c | c in xt.kids ensures Kid(m2, x, c) == Kid(m, x, c) {
      assert c in Kids(m[x]).Keys;
      KidsAre(m[x], c);
      KidsAre(m2[x], c);
    }
  }

  lemma ClearIndexAges(n: Node, b: Byte)
    requires n.Node48? && Shape(n) && Find(n, b) == 0
    ensures Ages(n, ClearIndex(n, b))
  {
  }

  lemma CountDownAges(n: Node)
    requires (n.Node48? || n.Node256?) && n.num > 0 && Shape(n)
    ensures Ages(n, CountDown(n))
  {
  }
}
