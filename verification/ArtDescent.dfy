/** Where a writer stands during its descent, and what publishing at that place does: the branch
    lemmas of insert and delete, each about one write. */
module ArtDescent {
  import opened Options
  import opened Bytes
  import opened ArtTrie
  import opened ArtTrieDelete
  import opened ArtNode
  import opened ArtStore
  import opened ArtStep
  import opened ArtBuild

  /** A node a descent has reached, with its path and subtree, and the parent and edge it came by.
      The parent is 0 at the root. */
  datatype Spot = Spot(node: Ptr, npre: Key, nt: Trie, par: Ptr, ppre: Key, pt: Trie, b: Byte)

  /** The key passes the inner node `t` at path `pre` and leaves it by the used edge `b`. */
  ghost predicate Selects(t: Trie, pre: Key, k: Key, b: Byte) {
    && t.Inner? && |pre| <= |k| && Agree(t.prefix, k, |pre|) == |t.prefix|
    && b == EdgeByte(k, |pre| + |t.prefix|) && b in t.kids
  }

  ghost predicate OnPath(s: Store, k: Key, z: Spot)
    requires Good(s)
  {
    && Place(s, z.node, z.npre, z.nt) && Through(z.npre, k)
    && if z.par == 0 then z.node == s.root && z.npre == [] && s.tree == Some(z.nt) else ByEdge(s, k, z)
  }

  ghost predicate ByEdge(s: Store, k: Key, z: Spot)
    requires Good(s)
  {
    && Place(s, z.par, z.ppre, z.pt) && Through(z.ppre, k) && Selects(z.pt, z.ppre, k, z.b)
    && Kid(s.mem, z.par, z.b) == z.node && z.pt.kids[z.b] == z.nt
    && z.npre == ChildPath(z.ppre, z.pt.prefix, z.b)
  }

  lemma AtStart(s: Store, k: Key)
    requires Good(s) && s.tree.Some?
    ensures OnPath(s, k, Spot(s.root, [], s.tree.value, 0, [], s.tree.value, 0))
  {
    hide At, Apart, WF, Loc;
    LocHere(s.mem, s.root, s.tree.value, []);
  }

  ghost function NextSpot(s: Store, z: Spot, b: Byte, p: Ptr): Spot
    requires z.nt.Inner? && b in z.nt.kids
  {
    Spot(p, ChildPath(z.npre, z.nt.prefix, b), z.nt.kids[b], z.node, z.npre, z.nt, b)
  }

  /** One step of the descent. */
  lemma StepDown(s: Store, k: Key, z: Spot, b: Byte)
    requires Good(s) && ZeroFree(k) && OnPath(s, k, z) && Selects(z.nt, z.npre, k, b)
    ensures OnPath(s, k, NextSpot(s, z, b, Kid(s.mem, z.node, b))) && z.node != 0
    ensures |ChildPath(z.npre, z.nt.prefix, b)| == |z.npre| + |z.nt.prefix| + 1
  {
    hide At, Apart, WF, Loc, Kid, Agree, EdgeByte, Through, ZeroFree, ByEdge;
    SpotIs(s, k, z);
    InnerPath(z.nt, z.npre);
    PrefixTest(z.nt.prefix, z.npre, k);
    PathExtends(z.npre + z.nt.prefix, k, b);
    LocKid(s.mem, s.root, s.tree.value, [], z.node, z.npre, z.nt, b);
    NextByEdge(s, k, z, b);
  }

  lemma NextByEdge(s: Store, k: Key, z: Spot, b: Byte)
    requires Good(s) && OnPath(s, k, z) && Selects(z.nt, z.npre, k, b)
    ensures ByEdge(s, k, NextSpot(s, z, b, Kid(s.mem, z.node, b)))
  {
    hide At, Apart, WF, Loc, Kid, Agree, EdgeByte, Through, ZeroFree;
  }

  /** What memory holds at a spot. */
  lemma SpotIs(s: Store, k: Key, z: Spot)
    requires Good(s) && OnPath(s, k, z)
    ensures s.tree.Some? && At(s.mem, z.node, z.nt) && Apart(s.mem, z.node, z.nt) && WF(z.nt, z.npre)
    ensures z.node in s.mem && z.node != 0 && z.node in Reach(s) && Through(z.npre, k)
  {
    hide At, Apart, WF, Loc, Kid, Through, ByEdge, Foot;
    LocAt(s.mem, s.root, s.tree.value, [], z.node, z.npre, z.nt);
    AtNonNull(s.mem, z.node, z.nt);
  }

  lemma ParentIs(s: Store, k: Key, z: Spot)
    requires Good(s) && OnPath(s, k, z) && z.par != 0
    ensures s.tree.Some? && At(s.mem, z.par, z.pt) && Apart(s.mem, z.par, z.pt) && WF(z.pt, z.ppre)
    ensures z.par in s.mem && z.par in Reach(s) && Through(z.ppre, k) && z.pt.Inner? && z.b in z.pt.kids
    ensures !s.mem[z.par].LeafNode? && Shape(s.mem[z.par]) && Find(s.mem[z.par], z.b) == z.node
    ensures At(s.mem, z.node, z.nt) && z.par !in Foot(s.mem, z.node, z.nt)
  {
    hide At, Apart, WF, Loc, Through, Foot, Shape, Find, Agree, EdgeByte;
    LocAt(s.mem, s.root, s.tree.value, [], z.par, z.ppre, z.pt);
    AtNonNull(s.mem, z.par, z.pt);
    InnerNode(s.mem, z.par, z.pt);
    FootKid(s.mem, z.par, z.pt, z.b);
  }

  /** The write that links `q` at a spot: the root, or the parent's slot. */
  ghost predicate Swung(s: Store, m2: Mem, root2: Ptr, z: Spot, q: Ptr) {
    if z.par == 0 then
      root2 == q && forall y :: y in s.mem ==> y in m2 && m2[y] == s.mem[y]
    else
      root2 == s.root && Linked(s.mem, m2, z.par, z.b, q)
  }

  lemma SwungSame(s: Store, k: Key, z: Spot, m2: Mem, root2: Ptr, q: Ptr)
    requires Good(s) && OnPath(s, k, z) && Swung(s, m2, root2, z, q)
    ensures At(s.mem, z.node, z.nt) && SameOn(s.mem, m2, Foot(s.mem, z.node, z.nt))
  {
    hide At, Apart, WF, Loc, Through, Foot, Shape, Find, SetChild, OnPath;
    SpotIs(s, k, z);
    if z.par != 0 { ParentIs(s, k, z); }
    forall y | y in Foot(s.mem, z.node, z.nt) ensures y in s.mem && y != z.par {
      FootInMem(s.mem, z.node, z.nt, y);
    }
  }

  // ---------- The whole tree after a write at a spot ----------

  /** The whole tree when the subtree at a spot becomes `u`. */
  ghost function TreeWith(s: Store, k: Key, z: Spot, u: Trie): Trie
    requires Good(s) && OnPath(s, k, z)
  {
    if z.par == 0 then u
    else
      ParentIs(s, k, z);
      PutAt(s.mem, s.root, s.tree.value, z.par, Inner(z.pt.prefix, z.pt.kids[z.b := u]))
  }

  /** Inserting below a spot is inserting into the whole tree. */
  lemma TreeWithIns(s: Store, k: Key, v: Val, z: Spot)
    requires Good(s) && ZeroFree(k) && OnPath(s, k, z)
    ensures s.tree.Some? && WF(s.tree.value, []) && Through([], k) && WF(z.nt, z.npre) && Through(z.npre, k)
    ensures TreeWith(s, k, z, Ins(z.nt, k, v, z.npre)) == Ins(s.tree.value, k, v, [])
    ensures WF(Ins(s.tree.value, k, v, []), [])
  {
    hide At, Apart, WF, Loc, Kid, Agree, EdgeByte, Through, ZeroFree, Ins, PutAt, Has;
    SpotIs(s, k, z);
    PathShorter([], [], k) by { PrefixOfPath([], k, 0); }
    InsCorrect(s.tree.value, k, v, []);
    if z.par != 0 {
      ParentIs(s, k, z);
      InsAt(s.mem, s.root, s.tree.value, [], z.par, z.ppre, z.pt, k, v);
      InsSelected(z.pt, z.ppre, k, v, z.b);
    }
  }

  lemma InsSelected(t: Trie, pre: Key, k: Key, v: Val, b: Byte)
    requires WF(t, pre) && ZeroFree(k) && Through(pre, k) && Selects(t, pre, k, b)
    ensures WF(t.kids[b], ChildPath(pre, t.prefix, b)) && Through(ChildPath(pre, t.prefix, b), k)
    ensures Ins(t, k, v, pre) == Inner(t.prefix, t.kids[b := Ins(t.kids[b], k, v, ChildPath(pre, t.prefix, b))])
  {
    hide Agree, EdgeByte, Through, ZeroFree;
    PrefixTest(t.prefix, pre, k);
    PathExtends(pre + t.prefix, k, b);
  }

  /** Deleting below an inner spot is deleting in the whole tree. */
  lemma TreeWithDel(s: Store, k: Key, z: Spot, body: Key)
    requires Good(s) && ZeroFree(k) && OnPath(s, k, z) && z.nt.Inner?
    ensures s.tree.Some? && s.tree.value.Inner?
    ensures TreeWith(s, k, z, DelInner(z.nt, k, |z.npre|, body)) == DelInner(s.tree.value, k, 0, body)
    ensures DelFits(s.tree.value, k, 0) <==> DelFits(z.nt, k, |z.npre|)
    ensures DelReads(s.tree.value, k, 0, body) <==> DelReads(z.nt, k, |z.npre|, body)
    ensures DelReads(z.nt, k, |z.npre|, body) ==> WF(DelInner(s.tree.value, k, 0, body), [])
  {
    hide At, Apart, WF, Loc, Kid, Agree, EdgeByte, Through, ZeroFree, DelInner, DelFits, DelReads, PutAt, Has;
    SpotIs(s, k, z);
    PathShorter([], [], k) by { PrefixOfPath([], k, 0); }
    DelAt(s.mem, s.root, s.tree.value, [], z.node, z.npre, z.nt, k, body);
    if DelReads(z.nt, k, |z.npre|, body) { DelCorrect(s.tree.value, k, [], body); }
    if z.par != 0 {
      ParentIs(s, k, z);
      DelAt(s.mem, s.root, s.tree.value, [], z.par, z.ppre, z.pt, k, body);
      DelSelected(z.pt, z.ppre, k, z.b, body);
    }
  }

  lemma DelSelected(t: Trie, pre: Key, k: Key, b: Byte, body: Key)
    requires Selects(t, pre, k, b) && t.kids[b].Inner?
    ensures DelInner(t, k, |pre|, body) == Inner(t.prefix, t.kids[b := DelInner(t.kids[b], k, |ChildPath(pre, t.prefix, b)|, body)])
  {
    hide Agree, EdgeByte, Through, ZeroFree;
  }

  // ---------- Publishing ----------

  /** A built subtree is published at a spot. */
  lemma Publish(s: Store, s2: Store, k: Key, z: Spot, q: Ptr, u: Trie)
    requires Good(s) && OnPath(s, k, z) && Swung(s, s2.mem, s2.root, z, q) && 0 !in s2.mem
    requires Built(s.mem, s2.mem, z.node, z.nt, z.npre, q, u)
    requires s2.tree == Some(TreeWith(s, k, z, u)) && WF(s2.tree.value, [])
    ensures StepOK(s, s2)
  {
    hide At, Apart, WF, Loc, Kid, Agree, EdgeByte, Through, PutAt, Foot, Linked, StepOK, Built;
    if z.par == 0 {
      SwingRoot(s, s2, u);
    } else {
      ParentIs(s, k, z);
      SwingKid(s, s2, z.par, z.ppre, z.pt, z.b, q, u);
    }
  }

  /** A grafted subtree is published at a spot, whatever paths its prefix spells. */
  lemma PublishTree(s: Store, m2: Mem, root2: Ptr, k: Key, z: Spot, q: Ptr, u: Trie)
    requires Good(s) && OnPath(s, k, z) && Swung(s, m2, root2, z, q)
    requires Graft(s.mem, m2, z.node, z.nt, q, u)
    ensures At(m2, root2, TreeWith(s, k, z, u)) && Apart(m2, root2, TreeWith(s, k, z, u))
  {
    hide At, Apart, WF, Loc, Kid, Agree, EdgeByte, Through, PutAt, Foot, Linked;
    if z.par != 0 {
      ParentIs(s, k, z);
      SwingKidTree(s, m2, z.par, z.ppre, z.pt, z.b, q, u);
    }
  }

  // ---------- The branches of insert ----------

  /** A new leaf takes the place of the key's old one. */
  lemma InsertReplaces(s: Store, m2: Mem, root2: Ptr, k: Key, v: Val, z: Spot, q: Ptr)
    requires Good(s) && ZeroFree(k) && OnPath(s, k, z) && Swung(s, m2, root2, z, q)
    requires z.nt.Leaf? && z.nt.key == k && Fresh(s.mem, m2, q) && LeafAt(m2, q, k, v)
    ensures WF(z.nt, z.npre) && Through(z.npre, k) && Built(s.mem, m2, z.node, z.nt, z.npre, q, Ins(z.nt, k, v, z.npre))
  {
    hide At, Apart, WF, Loc, Built, OnPath;
    SpotIs(s, k, z);
    BuiltLeaf(s.mem, m2, z.node, z.nt, z.npre, q, k, v);
  }

  /** A new Node4 over the old leaf and the new one. */
  lemma InsertSplitsLeaf(s: Store, m2: Mem, root2: Ptr, k: Key, v: Val, z: Spot, q: Ptr, l: Ptr)
    requires Good(s) && ZeroFree(k) && OnPath(s, k, z) && Swung(s, m2, root2, z, q)
    requires z.nt.Leaf? && z.nt.key != k && Fresh(s.mem, m2, q) && Fresh(s.mem, m2, l) && q != l && LeafAt(m2, l, k, v)
    requires |z.npre| <= |k| && |z.npre| <= |z.nt.key|
    requires var d := |z.npre|; var p := Common(z.nt.key, d, k, d);
             m2[q] == Leaf4(k[d..d + p], EdgeByte(z.nt.key, d + p), z.node, EdgeByte(k, d + p), l)
    ensures WF(z.nt, z.npre) && Through(z.npre, k) && Built(s.mem, m2, z.node, z.nt, z.npre, q, Ins(z.nt, k, v, z.npre))
  {
    hide At, Apart, WF, Loc, Built, OnPath, Common, EdgeByte, Through, ZeroFree, Leaf4;
    SpotIs(s, k, z);
    SwungSame(s, k, z, m2, root2, q);
    LeafIs(z.nt, z.npre);
    LeafDepth(z.nt, k, z.npre);
    SplitPath(z.nt.key, k, z.npre);
    var d := |z.npre|;
    var p := Common(z.nt.key, d, k, d);
    BuiltSplitLeaf(s.mem, m2, z.node, z.nt, z.npre, q, l, k[d..d + p], EdgeByte(z.nt.key, d + p), EdgeByte(k, d + p), k, v);
  }

  /** A new Node4 over a shorter copy of the node and a new leaf. */
  lemma InsertSplitsPrefix(s: Store, m2: Mem, root2: Ptr, k: Key, v: Val, z: Spot, q: Ptr, c: Ptr, l: Ptr)
    requires Good(s) && ZeroFree(k) && OnPath(s, k, z) && Swung(s, m2, root2, z, q)
    requires z.nt.Inner? && |z.npre| <= |k| && Agree(z.nt.prefix, k, |z.npre|) < |z.nt.prefix|
    requires Fresh(s.mem, m2, q) && Fresh(s.mem, m2, c) && Fresh(s.mem, m2, l) && q != l && q != c && l != c && LeafAt(m2, l, k, v)
    requires z.node in s.mem && Shape(s.mem[z.node])
    requires Shape(m2[c]) && !m2[c].LeafNode? && Kids(m2[c]) == Kids(s.mem[z.node])
    requires var p := Agree(z.nt.prefix, k, |z.npre|);
             && m2[c].prefix == z.nt.prefix[p + 1..]
             && m2[q] == Leaf4(z.nt.prefix[..p], z.nt.prefix[p], c, EdgeByte(k, |z.npre| + p), l)
    ensures WF(z.nt, z.npre) && Through(z.npre, k) && Built(s.mem, m2, z.node, z.nt, z.npre, q, Ins(z.nt, k, v, z.npre))
  {
    hide At, Apart, WF, Loc, Built, OnPath, Agree, EdgeByte, Through, ZeroFree, Leaf4, Recast, Kids, Shape;
    SpotIs(s, k, z);
    SwungSame(s, k, z, m2, root2, q);
    InnerPath(z.nt, z.npre);
    PrefixTest(z.nt.prefix, z.npre, k);
    var p := Agree(z.nt.prefix, k, |z.npre|);
    var low := Inner(z.nt.prefix[p + 1..], z.nt.kids);
    InnerNode(s.mem, z.node, z.nt);
    SameKidsRecast(s.mem, m2, z.node, z.nt, c, low);
    LeavesPrefix(z.nt.prefix, k, z.npre);
    BuiltSplitPrefix(s.mem, m2, z.node, z.nt, z.npre, q, c, l, z.nt.prefix[..p], z.nt.prefix[p], low,
                     EdgeByte(k, |z.npre| + p), k, v);
    InsSplit(z.nt, z.npre, k, v);
  }

  lemma InsSplit(t: Trie, pre: Key, k: Key, v: Val)
    requires WF(t, pre) && ZeroFree(k) && Through(pre, k) && t.Inner? && |pre| <= |k| && Agree(t.prefix, k, |pre|) < |t.prefix|
    ensures Ins(t, k, v, pre) == SplitPrefix(t, k, v, |pre|, Agree(t.prefix, k, |pre|))
  {
    hide WF, Through, ZeroFree, Agree, EdgeByte, SplitPrefix;
  }

  /** A node with the children of `x` that `v` keeps. */
  lemma SameKidsRecast(m: Mem, m2: Mem, x: Ptr, xt: Trie, q: Ptr, v: Trie)
    requires At(m, x, xt) && Apart(m, x, xt) && xt.Inner? && SameOn(m, m2, Foot(m, x, xt)) && Fresh(m, m2, q)
    requires x in m && Shape(m[x])
    requires Shape(m2[q]) && !m2[q].LeafNode?
    requires v.Inner? && m2[q].prefix == v.prefix && v.kids.Keys <= xt.kids.Keys
    requires forall c :: c in v.kids ==> v.kids[c] == xt.kids[c]
    requires Kids(m2[q]).Keys == v.kids.Keys && forall c :: c in Kids(m2[q]) ==> c in Kids(m[x]) && Kids(m2[q])[c] == Kids(m[x])[c]
    ensures Recast(m, m2, x, xt, q, v)
  {
    hide Apart, Foot, Shape, Find, Kids;
    forall c | c in v.kids ensures Kid(m2, q, c) == Kid(m, x, c) {
      assert c in Kids(m2[q]).Keys;
      KidsAre(m2[q], c);
      KidsAre(m[x], c);
    }
  }

  /** A copy of the node with one more leaf. */
  lemma InsertAddsChild(s: Store, m2: Mem, root2: Ptr, k: Key, v: Val, z: Spot, q: Ptr, l: Ptr, b: Byte)
    requires Good(s) && ZeroFree(k) && OnPath(s, k, z) && Swung(s, m2, root2, z, q)
    requires z.nt.Inner? && |z.npre| <= |k| && Agree(z.nt.prefix, k, |z.npre|) == |z.nt.prefix|
    requires b == EdgeByte(k, |z.npre| + |z.nt.prefix|) && b !in z.nt.kids
    requires Fresh(s.mem, m2, q) && Fresh(s.mem, m2, l) && q != l && LeafAt(m2, l, k, v)
    requires z.node in s.mem && Shape(s.mem[z.node])
    requires Shape(m2[q]) && !m2[q].LeafNode? && m2[q].prefix == z.nt.prefix && Kids(m2[q]) == Kids(s.mem[z.node])[b := l]
    ensures WF(z.nt, z.npre) && Through(z.npre, k) && Built(s.mem, m2, z.node, z.nt, z.npre, q, Ins(z.nt, k, v, z.npre))
  {
    hide At, Apart, WF, Loc, Built, OnPath, Agree, EdgeByte, Through, ZeroFree, Kids, Shape, Regrown;
    SpotIs(s, k, z);
    SwungSame(s, k, z, m2, root2, q);
    InnerPath(z.nt, z.npre);
    MoreKidsRegrown(s.mem, m2, z.node, z.nt, q, b, l, k, v);
    BuiltAddChild(s.mem, m2, z.node, z.nt, z.npre, q, b, l, k, v);
    InsAdds(z.nt, z.npre, k, v, b);
  }

  lemma InsAdds(t: Trie, pre: Key, k: Key, v: Val, b: Byte)
    requires WF(t, pre) && ZeroFree(k) && Through(pre, k) && t.Inner? && |pre| <= |k| && Agree(t.prefix, k, |pre|) == |t.prefix|
    requires b == EdgeByte(k, |pre| + |t.prefix|) && b !in t.kids
    ensures Ins(t, k, v, pre) == Inner(t.prefix, t.kids[b := Leaf(k, v)])
  {
    hide WF, Through, ZeroFree, Agree, EdgeByte;
  }

  lemma MoreKidsRegrown(m: Mem, m2: Mem, x: Ptr, xt: Trie, q: Ptr, b: Byte, l: Ptr, k: Key, v: Val)
    requires At(m, x, xt) && Apart(m, x, xt) && xt.Inner? && SameOn(m, m2, Foot(m, x, xt)) && b !in xt.kids
    requires Fresh(m, m2, q) && Fresh(m, m2, l) && q != l && LeafAt(m2, l, k, v)
    requires x in m && Shape(m[x])
    requires Shape(m2[q]) && !m2[q].LeafNode? && m2[q].prefix == xt.prefix && Kids(m2[q]) == Kids(m[x])[b := l]
    ensures Regrown(m, m2, x, xt, q, b, l, k, v)
  {
    hide Apart, Foot, Shape, Find, Kids;
    KidsAre(m2[q], b);
    assert Kids(m2[q]).Keys == Kids(m[x]).Keys + {b};
    forall c | c in xt.kids ensures Kid(m2, q, c) == Kid(m, x, c) {
      assert c in Kids(m[x]).Keys;
      KidsAre(m2[q], c);
      KidsAre(m[x], c);
    }
  }
}
