/** The subtrees that insert and delete build before they publish them: a new leaf, a split leaf,
    a split prefix, a node with one child more or less, and the two forms of a collapse. */
module ArtBuild {
  import opened Bytes
  import opened ArtTrie
  import opened ArtNode
  import opened ArtStore
  import opened ArtStep

  /** `q` is a node that `m` does not have. */
  ghost predicate Fresh(m: Mem, m2: Mem, q: Ptr) {
    q != 0 && q !in m && q in m2
  }

  ghost predicate LeafAt(m: Mem, q: Ptr, k: Key, v: Val) {
    q in m && m[q] == LeafNode(k, v)
  }

  lemma LeafTree(m: Mem, q: Ptr, k: Key, v: Val, pre: Key)
    requires LeafAt(m, q, k, v) && q != 0
    ensures At(m, q, Leaf(k, v)) && Apart(m, q, Leaf(k, v)) && Foot(m, q, Leaf(k, v)) == {q}
    ensures forall y, ypre, yt :: Loc(m, q, Leaf(k, v), pre, y, ypre, yt) <==> y == q && ypre == pre && yt == Leaf(k, v)
  {
  }

  /** A new leaf in the place of anything. */
  lemma BuiltLeaf(m: Mem, m2: Mem, x: Ptr, xt: Trie, xpre: Key, q: Ptr, k: Key, v: Val)
    requires At(m, x, xt) && Fresh(m, m2, q) && LeafAt(m2, q, k, v)
    ensures Built(m, m2, x, xt, xpre, q, Leaf(k, v))
  {
    hide At, Apart, Foot, Loc;
    LeafTree(m2, q, k, v, xpre);
  }

  // ---------- A two-way branch ----------

  /** The Node4 made by a split, over two disjoint subtrees. */
  lemma Branch(m: Mem, q: Ptr, prefix: Key, b1: Byte, p1: Ptr, t1: Trie, b2: Byte, p2: Ptr, t2: Trie)
    requires q != 0 && q in m && b1 != b2 && m[q] == Leaf4(prefix, b1, p1, b2, p2)
    requires At(m, p1, t1) && Apart(m, p1, t1) && At(m, p2, t2) && Apart(m, p2, t2)
    requires Foot(m, p1, t1) !! Foot(m, p2, t2) && q !in Foot(m, p1, t1) && q !in Foot(m, p2, t2)
    ensures var u := Inner(prefix, map[b1 := t1, b2 := t2]);
            At(m, q, u) && Apart(m, q, u) && Foot(m, q, u) == {q} + Foot(m, p1, t1) + Foot(m, p2, t2)
    ensures Kid(m, q, b1) == p1 && Kid(m, q, b2) == p2
  {
    hide Foot, Feet, Shape, Find, Kids, Leaf4, Union, Disjoint, Apart;
    var u := Inner(prefix, map[b1 := t1, b2 := t2]);
    var n := m[q];
    AtNonNull(m, p1, t1);
    AtNonNull(m, p2, t2);
    TwoKids(prefix, b1, p1, b2, p2);
    KidsAre(n, b1);
    KidsAre(n, b2);
    Leaf4Prefix(prefix, b1, p1, b2, p2);
    assert At(m, q, u);
    BranchFeet(m, q, u, b1, p1, t1, b2, p2, t2);
  }

  lemma AtNonNull(m: Mem, p: Ptr, t: Trie)
    requires At(m, p, t)
    ensures p != 0 && p in m
  {
    hide InnerAt, Kid;
  }

  lemma Leaf4Prefix(prefix: Key, b1: Byte, p1: Ptr, b2: Byte, p2: Ptr)
    ensures Leaf4(prefix, b1, p1, b2, p2).Node4? && Leaf4(prefix, b1, p1, b2, p2).prefix == prefix
  {
  }

  lemma BranchFeet(m: Mem, q: Ptr, u: Trie, b1: Byte, p1: Ptr, t1: Trie, b2: Byte, p2: Ptr, t2: Trie)
    requires b1 != b2 && At(m, q, u) && u.Inner? && u.kids == map[b1 := t1, b2 := t2]
    requires Kid(m, q, b1) == p1 && Kid(m, q, b2) == p2
    requires At(m, p1, t1) && Apart(m, p1, t1) && At(m, p2, t2) && Apart(m, p2, t2)
    requires Foot(m, p1, t1) !! Foot(m, p2, t2) && q !in Foot(m, p1, t1) && q !in Foot(m, p2, t2)
    ensures Apart(m, q, u) && Foot(m, q, u) == {q} + Foot(m, p1, t1) + Foot(m, p2, t2)
  {
    hide At, Foot, Feet, Kid;
    FeetAre(m, q, u);
    var f := Feet(m, q, u);
    assert f.Keys == {b1, b2} && f[b1] == Foot(m, p1, t1) && f[b2] == Foot(m, p2, t2);
    forall y ensures y in Union(f) <==> y in f[b1] || y in f[b2] {
      if y in f[b1] { assert b1 in f; } else if y in f[b2] { assert b2 in f; }
    }
  }

  lemma BranchLoc(m: Mem, q: Ptr, u: Trie, b1: Byte, p1: Ptr, t1: Trie, b2: Byte, p2: Ptr, t2: Trie, pre: Key, y: Ptr, ypre: Key, yt: Trie)
    requires b1 != b2 && At(m, q, u) && u.Inner? && u.kids == map[b1 := t1, b2 := t2]
    requires Kid(m, q, b1) == p1 && Kid(m, q, b2) == p2 && At(m, p1, t1) && At(m, p2, t2)
    requires Loc(m, q, u, pre, y, ypre, yt)
    ensures || y == q
            || Loc(m, p1, t1, ChildPath(pre, u.prefix, b1), y, ypre, yt)
            || Loc(m, p2, t2, ChildPath(pre, u.prefix, b2), y, ypre, yt)
  {
    hide At, Loc, Kid, ChildPath;
    if y != q {
      var b := LocBelow(m, q, u, pre, y, ypre, yt);
      assert b == b1 || b == b2;
    }
  }

  /** A leaf split: the old leaf and a new one below a new Node4. */
  lemma BuiltSplitLeaf(m: Mem, m2: Mem, x: Ptr, xt: Trie, xpre: Key, q: Ptr, l: Ptr, prefix: Key, b1: Byte, b2: Byte, k: Key, v: Val)
    requires At(m, x, xt) && xt.Leaf? && SameOn(m, m2, Foot(m, x, xt)) && Fresh(m, m2, q) && Fresh(m, m2, l) && q != l && b1 != b2
    requires m2[q] == Leaf4(prefix, b1, x, b2, l) && LeafAt(m2, l, k, v)
    ensures Built(m, m2, x, xt, xpre, q, Inner(prefix, map[b1 := xt, b2 := Leaf(k, v)]))
  {
    hide Apart, Foot, Loc, Kid, Leaf4, ChildPath;
    LeafTree(m, x, xt.key, xt.val, xpre);
    assert x in Foot(m, x, xt);
    LeafTree(m2, x, xt.key, xt.val, ChildPath(xpre, prefix, b1));
    LeafTree(m2, l, k, v, ChildPath(xpre, prefix, b2));
    Branch(m2, q, prefix, b1, x, xt, b2, l, Leaf(k, v));
    var u := Inner(prefix, map[b1 := xt, b2 := Leaf(k, v)]);
    forall y, ypre, yt | Loc(m2, q, u, xpre, y, ypre, yt) ensures yt.Inner? ==> y !in m {
      BranchLoc(m2, q, u, b1, x, xt, b2, l, Leaf(k, v), xpre, y, ypre, yt);
    }
  }

  // ---------- A copy of an inner node, with all or some of its children ----------

  /** `q` is a new node over some of the children of `x`. */
  ghost predicate Recast(m: Mem, m2: Mem, x: Ptr, xt: Trie, q: Ptr, v: Trie)
    requires At(m, x, xt)
  {
    && Apart(m, x, xt) && xt.Inner? && v.Inner? && SameOn(m, m2, Foot(m, x, xt)) && Fresh(m, m2, q)
    && InnerAt(m2[q], v) && v.kids.Keys <= xt.kids.Keys
    && (forall c :: c in v.kids ==> v.kids[c] == xt.kids[c] && Kid(m2, q, c) == Kid(m, x, c))
  }

  /** A child that an unchanged part of memory keeps. */
  lemma KeptKid(m: Mem, m2: Mem, x: Ptr, xt: Trie, c: Byte)
    requires At(m, x, xt) && Apart(m, x, xt) && xt.Inner? && c in xt.kids && SameOn(m, m2, Foot(m, x, xt))
    ensures At(m, Kid(m, x, c), xt.kids[c]) && At(m2, Kid(m, x, c), xt.kids[c]) && Apart(m2, Kid(m, x, c), xt.kids[c])
    ensures Foot(m2, Kid(m, x, c), xt.kids[c]) == Foot(m, Kid(m, x, c), xt.kids[c]) <= Foot(m, x, xt)
    ensures SameOn(m, m2, Foot(m, Kid(m, x, c), xt.kids[c]))
  {
    hide Kid, Foot, Feet, Apart, InnerAt, At;
    FootKid(m, x, xt, c);
    Frame(m, m2, Kid(m, x, c), xt.kids[c]);
    FrameApart(m, m2, Kid(m, x, c), xt.kids[c]);
  }

  lemma RecastIs(m: Mem, m2: Mem, x: Ptr, xt: Trie, q: Ptr, v: Trie)
    requires At(m, x, xt) && Recast(m, m2, x, xt, q, v)
    ensures v.Inner? && xt.Inner? && Fresh(m, m2, q) && InnerAt(m2[q], v)
    ensures Apart(m, x, xt) && SameOn(m, m2, Foot(m, x, xt))
    ensures forall c :: c in v.kids ==> c in xt.kids && v.kids[c] == xt.kids[c] && Kid(m2, q, c) == Kid(m, x, c)
  {
    hide Kid, Foot, Apart, InnerAt, At;
    forall c | c in v.kids ensures c in xt.kids { assert c in xt.kids.Keys; }
  }

  lemma RecastTree(m: Mem, m2: Mem, x: Ptr, xt: Trie, q: Ptr, v: Trie)
    requires At(m, x, xt) && Recast(m, m2, x, xt, q, v)
    ensures At(m2, q, v) && Apart(m2, q, v)
    ensures forall y :: y in Foot(m2, q, v) ==> y == q || y in Foot(m, x, xt)
  {
    hide Kid, Foot, Feet, Apart, InnerAt, Disjoint, Union, Recast;
    RecastIs(m, m2, x, xt, q, v);
    forall c | c in v.kids ensures At(m2, Kid(m2, q, c), v.kids[c]) { KeptKid(m, m2, x, xt, c); }
    assert At(m2, q, v);
    RecastFeet(m, m2, x, xt, q, v);
  }

  lemma RecastFeet(m: Mem, m2: Mem, x: Ptr, xt: Trie, q: Ptr, v: Trie)
    requires At(m, x, xt) && Recast(m, m2, x, xt, q, v) && At(m2, q, v)
    ensures Apart(m2, q, v)
    ensures forall y :: y in Foot(m2, q, v) ==> y == q || y in Foot(m, x, xt)
  {
    hide Kid, At, Foot, Feet, InnerAt;
    FeetAre(m, x, xt);
    FeetAre(m2, q, v);
    var f, g := Feet(m, x, xt), Feet(m2, q, v);
    forall c | c in g ensures c in f && g[c] == f[c] && Apart(m2, Kid(m2, q, c), v.kids[c]) {
      assert c in v.kids && c in xt.kids.Keys;
      KeptKid(m, m2, x, xt, c);
    }
    forall y | y in Union(g) ensures y in Union(f) && y in m {
      var c :| c in g && y in g[c];
      assert c in f && y in f[c];
      FootInMem(m, x, xt, y);
    }
  }

  lemma SamePaths(xpre: Key, xprefix: Key, vpre: Key, vprefix: Key, c: Byte)
    requires vpre + vprefix == xpre + xprefix
    ensures ChildPath(vpre, vprefix, c) == ChildPath(xpre, xprefix, c)
  {
  }

  /** With the prefix cut or extended so that the children's paths stay, everything below stays. */
  lemma RecastLoc(m: Mem, m2: Mem, x: Ptr, xt: Trie, xpre: Key, q: Ptr, v: Trie, vpre: Key, y: Ptr, ypre: Key, yt: Trie)
    requires At(m, x, xt) && Recast(m, m2, x, xt, q, v) && xt.Inner? && v.Inner? && vpre + v.prefix == xpre + xt.prefix
    requires At(m2, q, v) && Loc(m2, q, v, vpre, y, ypre, yt) && y != q
    ensures Loc(m, x, xt, xpre, y, ypre, yt)
  {
    hide Kid, Foot, Apart, InnerAt, At, Loc, ChildPath, Recast;
    var c := LocBelow(m2, q, v, vpre, y, ypre, yt);
    RecastIs(m, m2, x, xt, q, v);
    KeptKid(m, m2, x, xt, c);
    SamePaths(xpre, xt.prefix, vpre, v.prefix, c);
    FrameLoc(m, m2, Kid(m, x, c), xt.kids[c], ChildPath(xpre, xt.prefix, c), y, ypre, yt);
    LocLift(m, x, xt, xpre, c, y, ypre, yt);
  }

  lemma RecastGraft(m: Mem, m2: Mem, x: Ptr, xt: Trie, q: Ptr, v: Trie)
    requires At(m, x, xt) && Recast(m, m2, x, xt, q, v)
    ensures Graft(m, m2, x, xt, q, v) && Fresh(m, m2, q)
  {
    hide Kid, Foot, Apart, InnerAt, At, Recast;
    RecastTree(m, m2, x, xt, q, v);
    RecastIs(m, m2, x, xt, q, v);
  }

  /** A copy without some children, or with the same ones. */
  lemma BuiltRecast(m: Mem, m2: Mem, x: Ptr, xt: Trie, xpre: Key, q: Ptr, v: Trie)
    requires At(m, x, xt) && Recast(m, m2, x, xt, q, v) && xt.Inner? && v.Inner? && v.prefix == xt.prefix
    ensures Built(m, m2, x, xt, xpre, q, v)
  {
    hide Graft, Kid, Foot, Apart, InnerAt, At, Loc, ChildPath, Recast;
    RecastGraft(m, m2, x, xt, q, v);
    GraftAt(m, m2, x, xt, q, v);
    forall y, ypre, yt | Loc(m2, q, v, xpre, y, ypre, yt) && yt.Inner? && y in m ensures Loc(m, x, xt, xpre, y, ypre, yt) {
      RecastLoc(m, m2, x, xt, xpre, q, v, xpre, y, ypre, yt);
    }
  }

  lemma GraftAt(m: Mem, m2: Mem, x: Ptr, xt: Trie, q: Ptr, v: Trie)
    requires Graft(m, m2, x, xt, q, v)
    ensures At(m, x, xt) && At(m2, q, v) && Apart(m2, q, v)
  {
    hide At, Apart, Foot;
  }

  /** A prefix split: a shorter copy of the old node and a new leaf below a new Node4. */
  lemma BuiltSplitPrefix(m: Mem, m2: Mem, x: Ptr, xt: Trie, xpre: Key, q: Ptr, c: Ptr, l: Ptr,
      prefix: Key, b1: Byte, low: Trie, b2: Byte, k: Key, v: Val)
    requires At(m, x, xt) && Recast(m, m2, x, xt, c, low) && xt.Inner? && low.Inner?
    requires ChildPath(xpre, prefix, b1) + low.prefix == xpre + xt.prefix
    requires Fresh(m, m2, q) && Fresh(m, m2, l) && q != l && q != c && l != c && b1 != b2
    requires m2[q] == Leaf4(prefix, b1, c, b2, l) && LeafAt(m2, l, k, v)
    ensures Built(m, m2, x, xt, xpre, q, Inner(prefix, map[b1 := low, b2 := Leaf(k, v)]))
  {
    hide Apart, Foot, Loc, Kid, Leaf4, ChildPath, At, Recast, InnerAt;
    RecastIs(m, m2, x, xt, c, low);
    RecastTree(m, m2, x, xt, c, low);
    LeafTree(m2, l, k, v, ChildPath(xpre, prefix, b2));
    forall y | y in Foot(m, x, xt) ensures y in m { FootInMem(m, x, xt, y); }
    Branch(m2, q, prefix, b1, c, low, b2, l, Leaf(k, v));
    var u := Inner(prefix, map[b1 := low, b2 := Leaf(k, v)]);
    forall y, ypre, yt | Loc(m2, q, u, xpre, y, ypre, yt) && yt.Inner? && y in m ensures Loc(m, x, xt, xpre, y, ypre, yt) {
      BranchLoc(m2, q, u, b1, c, low, b2, l, Leaf(k, v), xpre, y, ypre, yt);
      RecastLoc(m, m2, x, xt, xpre, c, low, ChildPath(xpre, prefix, b1), y, ypre, yt);
    }
  }

  // ---------- A copy of an inner node with one more child ----------

  /** `q` is a new node over all children of `x` and the new leaf `l` on a free edge. */
  ghost predicate Regrown(m: Mem, m2: Mem, x: Ptr, xt: Trie, q: Ptr, b: Byte, l: Ptr, k: Key, v: Val)
    requires At(m, x, xt)
  {
    && Apart(m, x, xt) && xt.Inner? && b !in xt.kids && SameOn(m, m2, Foot(m, x, xt))
    && Fresh(m, m2, q) && Fresh(m, m2, l) && q != l && LeafAt(m2, l, k, v)
    && InnerAt(m2[q], Inner(xt.prefix, xt.kids[b := Leaf(k, v)]))
    && Kid(m2, q, b) == l && (forall c :: c in xt.kids ==> Kid(m2, q, c) == Kid(m, x, c))
  }

  lemma RegrownTree(m: Mem, m2: Mem, x: Ptr, xt: Trie, q: Ptr, b: Byte, l: Ptr, k: Key, v: Val)
    requires At(m, x, xt) && Regrown(m, m2, x, xt, q, b, l, k, v)
    ensures var u := Inner(xt.prefix, xt.kids[b := Leaf(k, v)]);
            At(m2, q, u) && Apart(m2, q, u) && Foot(m2, q, u) <= {q, l} + Foot(m, x, xt)
  {
    hide Kid, Foot, Feet, Apart, InnerAt, Disjoint, Union;
    var u := Inner(xt.prefix, xt.kids[b := Leaf(k, v)]);
    LeafTree(m2, l, k, v, []);
    forall c | c in xt.kids ensures At(m2, Kid(m, x, c), xt.kids[c]) { KeptKid(m, m2, x, xt, c); }
    assert At(m2, q, u);
    RegrownFeet(m, m2, x, xt, q, b, l, k, v);
  }

  lemma RegrownFeet(m: Mem, m2: Mem, x: Ptr, xt: Trie, q: Ptr, b: Byte, l: Ptr, k: Key, v: Val)
    requires At(m, x, xt) && Regrown(m, m2, x, xt, q, b, l, k, v) && At(m2, q, Inner(xt.prefix, xt.kids[b := Leaf(k, v)]))
    ensures var u := Inner(xt.prefix, xt.kids[b := Leaf(k, v)]);
            Apart(m2, q, u) && Foot(m2, q, u) <= {q, l} + Foot(m, x, xt)
  {
    hide Kid, At, Foot, Feet, InnerAt, Union, Disjoint, Loc;
    var u := Inner(xt.prefix, xt.kids[b := Leaf(k, v)]);
    FeetAre(m, x, xt);
    FeetAre(m2, q, u);
    LeafTree(m2, l, k, v, []);
    var f, g := Feet(m, x, xt), Feet(m2, q, u);
    forall c | c in xt.kids ensures c in f && g[c] == f[c] && Apart(m2, Kid(m2, q, c), u.kids[c]) {
      KeptKid(m, m2, x, xt, c);
    }
    assert g == f[b := {l}];
    forall y | y in Foot(m, x, xt) ensures y in m { FootInMem(m, x, xt, y); }
    AddSet(f, b, l);
  }

  lemma AddSet(f: map<Byte, set<Ptr>>, b: Byte, l: Ptr)
    requires b !in f && Disjoint(f) && l !in Union(f)
    ensures Disjoint(f[b := {l}]) && Union(f[b := {l}]) == Union(f) + {l}
  {
    var g := f[b := {l}];
    forall y ensures y in Union(g) <==> y in Union(f) || y == l {
      if y in Union(f) { var c :| c in f && y in f[c]; assert c in g && y in g[c]; }
      if y == l { assert b in g && y in g[b]; }
    }
    assert forall c :: c in f && l in f[c] ==> l in Union(f);
  }

  lemma BuiltAddChild(m: Mem, m2: Mem, x: Ptr, xt: Trie, xpre: Key, q: Ptr, b: Byte, l: Ptr, k: Key, v: Val)
    requires At(m, x, xt) && Regrown(m, m2, x, xt, q, b, l, k, v)
    ensures Built(m, m2, x, xt, xpre, q, Inner(xt.prefix, xt.kids[b := Leaf(k, v)]))
  {
    hide Kid, Foot, Apart, InnerAt, At, Loc, ChildPath;
    var u := Inner(xt.prefix, xt.kids[b := Leaf(k, v)]);
    RegrownTree(m, m2, x, xt, q, b, l, k, v);
    forall y, ypre, yt | Loc(m2, q, u, xpre, y, ypre, yt) && y in m ensures yt.Inner? ==> Loc(m, x, xt, xpre, y, ypre, yt) {
      var c := LocBelow(m2, q, u, xpre, y, ypre, yt);
      if c in xt.kids {
        KeptKid(m, m2, x, xt, c);
        FrameLoc(m, m2, Kid(m, x, c), xt.kids[c], ChildPath(xpre, xt.prefix, c), y, ypre, yt);
        LocLift(m, x, xt, xpre, c, y, ypre, yt);
      } else {
        LeafTree(m2, l, k, v, ChildPath(xpre, xt.prefix, b));
      }
    }
  }

  // ---------- A collapse ----------

  /** A leaf child takes its parent's place. */
  lemma BuiltCollapseLeaf(m: Mem, m2: Mem, x: Ptr, xt: Trie, xpre: Key, c: Byte)
    requires At(m, x, xt) && SameOn(m, m2, Foot(m, x, xt)) && xt.Inner? && c in xt.kids && xt.kids[c].Leaf?
    ensures Built(m, m2, x, xt, xpre, Kid(m, x, c), xt.kids[c])
  {
    hide Kid, Foot, Apart, InnerAt, At, Loc, ChildPath;
    FootKid(m, x, xt, c);
    var q, o := Kid(m, x, c), xt.kids[c];
    LeafHere(m, q, o);
    SelfInFoot(m, q, o);
    LeafTree(m2, q, o.key, o.val, xpre);
  }

  lemma LeafHere(m: Mem, q: Ptr, o: Trie)
    requires At(m, q, o) && o.Leaf?
    ensures LeafAt(m, q, o.key, o.val) && q != 0
  {
  }

  /** A copy of an inner child takes its parent's place; when its prefix is the two prefixes joined by
      the edge byte, nothing below it moves. */
  lemma CollapseGraft(m: Mem, m2: Mem, x: Ptr, xt: Trie, c: Byte, q: Ptr, v: Trie)
    requires At(m, x, xt) && xt.Inner? && c in xt.kids && At(m, Kid(m, x, c), xt.kids[c])
    requires Recast(m, m2, Kid(m, x, c), xt.kids[c], q, v)
    ensures Graft(m, m2, x, xt, q, v) && Fresh(m, m2, q)
  {
    hide Kid, Foot, Apart, InnerAt, At, Recast;
    RecastGraft(m, m2, Kid(m, x, c), xt.kids[c], q, v);
    FootKid(m, x, xt, c);
  }

  lemma BuiltCollapseInner(m: Mem, m2: Mem, x: Ptr, xt: Trie, xpre: Key, c: Byte, q: Ptr, v: Trie)
    requires At(m, x, xt) && xt.Inner? && c in xt.kids && At(m, Kid(m, x, c), xt.kids[c])
    requires Recast(m, m2, Kid(m, x, c), xt.kids[c], q, v)
    requires xt.kids[c].Inner? && v.Inner? && xpre + v.prefix == ChildPath(xpre, xt.prefix, c) + xt.kids[c].prefix
    ensures Built(m, m2, x, xt, xpre, q, v)
  {
    hide Graft, Kid, Foot, Apart, InnerAt, At, Loc, ChildPath, Recast;
    CollapseGraft(m, m2, x, xt, c, q, v);
    GraftAt(m, m2, x, xt, q, v);
    forall y, ypre, yt | Loc(m2, q, v, xpre, y, ypre, yt) && yt.Inner? && y in m ensures Loc(m, x, xt, xpre, y, ypre, yt) {
      RecastLoc(m, m2, Kid(m, x, c), xt.kids[c], ChildPath(xpre, xt.prefix, c), q, v, xpre, y, ypre, yt);
      LocLift(m, x, xt, xpre, c, y, ypre, yt);
    }
  }
}
