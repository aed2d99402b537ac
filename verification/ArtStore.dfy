/** Trees of nodes in memory: which abstract tree a root address stands for, which addresses it
    uses, where each node sits, and what a write below one node does to the whole tree. */
module ArtStore {
  import opened Bytes
  import opened ArtTrie
  import opened ArtTrieDelete
  import opened ArtNode

  type Mem = map<Ptr, Node>

  /** The node at `p` is the root of the tree `t`. */
  ghost predicate At(m: Mem, p: Ptr, t: Trie)
    decreases t
  {
    && p != 0 && p in m
    && match t
       case Leaf(k, v) => m[p] == LeafNode(k, v)
       case Inner(prefix, kids) => InnerAt(m[p], t) && forall b :: b in kids ==> At(m, Kid(m, p, b), kids[b])
  }

  ghost predicate InnerAt(n: Node, t: Trie)
    requires t.Inner?
  {
    !n.LeafNode? && Shape(n) && n.prefix == t.prefix && Kids(n).Keys == t.kids.Keys
  }

  /** The child of the node at `p` on edge `b`. */
  ghost function Kid(m: Mem, p: Ptr, b: Byte): Ptr {
    if p in m && Shape(m[p]) then Find(m[p], b) else 0
  }

  /** The addresses a tree uses. */
  ghost function Foot(m: Mem, p: Ptr, t: Trie): set<Ptr>
    requires At(m, p, t)
    decreases t, 1
  {
    if t.Leaf? then {p} else {p} + Union(Feet(m, p, t))
  }

  /** The addresses below each child. */
  ghost function Feet(m: Mem, p: Ptr, t: Trie): map<Byte, set<Ptr>>
    requires At(m, p, t) && t.Inner?
    decreases t, 0
  {
    map b | b in t.kids :: Foot(m, Kid(m, p, b), t.kids[b])
  }

  ghost function Union(f: map<Byte, set<Ptr>>): set<Ptr> {
    set b, q | b in f && q in f[b] :: q
  }

  ghost predicate Disjoint(f: map<Byte, set<Ptr>>) {
    forall b, c :: b in f && c in f && b != c ==> f[b] !! f[c]
  }

  /** No address is used twice. */
  ghost predicate Apart(m: Mem, p: Ptr, t: Trie)
    requires At(m, p, t)
    decreases t
  {
    t.Inner? ==>
      && p !in Union(Feet(m, p, t)) && Disjoint(Feet(m, p, t))
      && forall b :: b in t.kids ==> Apart(m, Kid(m, p, b), t.kids[b])
  }

  /** Below the tree at `p` with path `pre`, the node `x` has path `xpre` and is the root of `xt`. */
  ghost predicate Loc(m: Mem, p: Ptr, t: Trie, pre: Key, x: Ptr, xpre: Key, xt: Trie)
    requires At(m, p, t)
    decreases t
  {
    || (x == p && xpre == pre && xt == t)
    || (t.Inner? && exists b :: b in t.kids && Loc(m, Kid(m, p, b), t.kids[b], ChildPath(pre, t.prefix, b), x, xpre, xt))
  }

  ghost predicate SameOn(m: Mem, m2: Mem, s: set<Ptr>) {
    forall q :: q in s ==> q in m && q in m2 && m2[q] == m[q]
  }

  lemma FeetAre(m: Mem, p: Ptr, t: Trie)
    requires At(m, p, t) && t.Inner?
    ensures Foot(m, p, t) == {p} + Union(Feet(m, p, t)) && Feet(m, p, t).Keys == t.kids.Keys
    ensures forall b :: b in t.kids ==> At(m, Kid(m, p, b), t.kids[b]) && Feet(m, p, t)[b] == Foot(m, Kid(m, p, b), t.kids[b])
  {
    hide InnerAt, Kid, Union;
  }

  lemma FootKid(m: Mem, p: Ptr, t: Trie, b: Byte)
    requires At(m, p, t) && t.Inner? && b in t.kids
    ensures At(m, Kid(m, p, b), t.kids[b]) && Foot(m, Kid(m, p, b), t.kids[b]) <= Foot(m, p, t)
    ensures p in Foot(m, p, t)
    ensures Apart(m, p, t) ==> p !in Foot(m, Kid(m, p, b), t.kids[b]) && Apart(m, Kid(m, p, b), t.kids[b])
  {
    hide InnerAt, Kid, Foot, Feet;
    FeetAre(m, p, t);
    var f := Feet(m, p, t);
    assert f[b] <= Union(f) by { forall q | q in f[b] ensures q in Union(f) { assert b in f && q in f[b]; } }
  }

  lemma FootKids(m: Mem, p: Ptr, t: Trie, b: Byte, c: Byte)
    requires At(m, p, t) && Apart(m, p, t) && t.Inner? && b in t.kids && c in t.kids && b != c
    ensures At(m, Kid(m, p, b), t.kids[b]) && At(m, Kid(m, p, c), t.kids[c])
    ensures Foot(m, Kid(m, p, b), t.kids[b]) !! Foot(m, Kid(m, p, c), t.kids[c])
  {
    hide InnerAt, Kid, Foot, Feet, Union;
    FeetAre(m, p, t);
  }

  lemma FootWhere(m: Mem, p: Ptr, t: Trie, x: Ptr)
    requires At(m, p, t) && x in Foot(m, p, t) && x != p
    ensures t.Inner? && exists b :: b in t.kids && At(m, Kid(m, p, b), t.kids[b]) && x in Foot(m, Kid(m, p, b), t.kids[b])
  {
    hide InnerAt, Kid, Feet;
    if t.Inner? {
      FeetAre(m, p, t);
      var b :| b in t.kids && x in Feet(m, p, t)[b];
    }
  }

  lemma {:induction false} FootInMem(m: Mem, p: Ptr, t: Trie, x: Ptr)
    requires At(m, p, t) && x in Foot(m, p, t)
    ensures x in m && x != 0
    decreases t
  {
    hide InnerAt, Kid, Foot;
    if x != p {
      FootWhere(m, p, t, x);
      var b :| b in t.kids && At(m, Kid(m, p, b), t.kids[b]) && x in Foot(m, Kid(m, p, b), t.kids[b]);
      FootInMem(m, Kid(m, p, b), t.kids[b], x);
    }
  }

  lemma SelfInFoot(m: Mem, p: Ptr, t: Trie)
    requires At(m, p, t)
    ensures p in Foot(m, p, t)
  {
    hide InnerAt, Kid, Feet;
  }

  /** A tree survives any change of memory outside its addresses. */
  lemma {:induction false} Frame(m: Mem, m2: Mem, p: Ptr, t: Trie)
    requires At(m, p, t) && SameOn(m, m2, Foot(m, p, t))
    ensures At(m2, p, t) && Foot(m2, p, t) == Foot(m, p, t)
    decreases t
  {
    hide InnerAt, Find, Shape, Foot, Feet, Union;
    SelfInFoot(m, p, t);
    if t.Inner? {
      forall b | b in t.kids
        ensures At(m2, Kid(m, p, b), t.kids[b])
        ensures Foot(m2, Kid(m, p, b), t.kids[b]) == Foot(m, Kid(m, p, b), t.kids[b])
      {
        FootKid(m, p, t, b);
        Frame(m, m2, Kid(m, p, b), t.kids[b]);
      }
    }
    FrameFoot(m, m2, p, t);
  }

  ghost predicate SameKid(m: Mem, m2: Mem, p: Ptr, b: Byte, t: Trie) {
    && Kid(m2, p, b) == Kid(m, p, b)
    && At(m2, Kid(m, p, b), t) && At(m, Kid(m, p, b), t)
    && Foot(m2, Kid(m, p, b), t) == Foot(m, Kid(m, p, b), t)
  }

  lemma FrameFoot(m: Mem, m2: Mem, p: Ptr, t: Trie)
    requires At(m, p, t) && At(m2, p, t)
    requires t.Inner? ==> forall b :: b in t.kids ==> SameKid(m, m2, p, b, t.kids[b])
    ensures Foot(m2, p, t) == Foot(m, p, t)
    ensures t.Inner? ==> Feet(m2, p, t) == Feet(m, p, t)
  {
    hide InnerAt, Kid, Union;
    if t.Inner? {
      FeetAre(m, p, t);
      FeetAre(m2, p, t);
      assert Feet(m2, p, t) == Feet(m, p, t);
    }
  }

  lemma {:induction false} FrameApart(m: Mem, m2: Mem, p: Ptr, t: Trie)
    requires At(m, p, t) && Apart(m, p, t) && SameOn(m, m2, Foot(m, p, t))
    ensures At(m2, p, t) && Apart(m2, p, t)
    decreases t
  {
    hide InnerAt, Find, Shape, Foot, Feet, Union, Disjoint;
    Frame(m, m2, p, t);
    SelfInFoot(m, p, t);
    if t.Inner? {
      forall b | b in t.kids
        ensures Kid(m2, p, b) == Kid(m, p, b) && At(m2, Kid(m, p, b), t.kids[b]) && At(m, Kid(m, p, b), t.kids[b])
        ensures Apart(m2, Kid(m, p, b), t.kids[b])
        ensures Foot(m2, Kid(m, p, b), t.kids[b]) == Foot(m, Kid(m, p, b), t.kids[b])
      {
        FootKid(m, p, t, b);
        Frame(m, m2, Kid(m, p, b), t.kids[b]);
        FrameApart(m, m2, Kid(m, p, b), t.kids[b]);
      }
      FrameFoot(m, m2, p, t);
    }
  }

  lemma {:induction false} FrameLoc(m: Mem, m2: Mem, p: Ptr, t: Trie, pre: Key, x: Ptr, xpre: Key, xt: Trie)
    requires At(m, p, t) && At(m2, p, t) && SameOn(m, m2, Foot(m, p, t))
    ensures Loc(m2, p, t, pre, x, xpre, xt) <==> Loc(m, p, t, pre, x, xpre, xt)
    decreases t
  {
    hide InnerAt, Find, Shape, Foot, Apart, ChildPath;
    SelfInFoot(m, p, t);
    if t.Inner? {
      forall b | b in t.kids
        ensures Kid(m2, p, b) == Kid(m, p, b)
        ensures Loc(m2, Kid(m2, p, b), t.kids[b], ChildPath(pre, t.prefix, b), x, xpre, xt)
                <==> Loc(m, Kid(m, p, b), t.kids[b], ChildPath(pre, t.prefix, b), x, xpre, xt)
      {
        FootKid(m, p, t, b);
        FrameLoc(m, m2, Kid(m, p, b), t.kids[b], ChildPath(pre, t.prefix, b), x, xpre, xt);
      }
    }
  }

  // ---------- Locations ----------

  /** Where a located node is not the root itself, it is located below one child. */
  lemma LocBelow(m: Mem, p: Ptr, t: Trie, pre: Key, x: Ptr, xpre: Key, xt: Trie) returns (b: Byte)
    requires At(m, p, t) && Loc(m, p, t, pre, x, xpre, xt) && !(x == p && xpre == pre && xt == t)
    ensures t.Inner? && b in t.kids && At(m, Kid(m, p, b), t.kids[b])
    ensures Loc(m, Kid(m, p, b), t.kids[b], ChildPath(pre, t.prefix, b), x, xpre, xt)
  {
    hide InnerAt, Kid, ChildPath;
    b :| b in t.kids && Loc(m, Kid(m, p, b), t.kids[b], ChildPath(pre, t.prefix, b), x, xpre, xt);
  }

  /** A located node carries its subtree, inside the addresses of the whole. */
  lemma {:induction false} LocAt(m: Mem, p: Ptr, t: Trie, pre: Key, x: Ptr, xpre: Key, xt: Trie)
    requires At(m, p, t) && Loc(m, p, t, pre, x, xpre, xt)
    ensures At(m, x, xt) && x in Foot(m, p, t) && Foot(m, x, xt) <= Foot(m, p, t)
    ensures pre <= xpre
    ensures WF(t, pre) ==> WF(xt, xpre)
    ensures Apart(m, p, t) ==> Apart(m, x, xt)
    decreases t
  {
    hide InnerAt, Kid, Through, ZeroFree, Foot, Apart, Loc, At;
    SelfInFoot(m, p, t);
    if !(x == p && xpre == pre && xt == t) {
      var b := LocBelow(m, p, t, pre, x, xpre, xt);
      LocAt(m, Kid(m, p, b), t.kids[b], ChildPath(pre, t.prefix, b), x, xpre, xt);
      FootKid(m, p, t, b);
      assert pre <= ChildPath(pre, t.prefix, b);
    }
  }

  lemma LocHere(m: Mem, p: Ptr, t: Trie, pre: Key)
    requires At(m, p, t)
    ensures Loc(m, p, t, pre, p, pre, t)
  {
  }

  lemma LocLift(m: Mem, p: Ptr, t: Trie, pre: Key, b: Byte, x: Ptr, xpre: Key, xt: Trie)
    requires At(m, p, t) && t.Inner? && b in t.kids && At(m, Kid(m, p, b), t.kids[b])
    requires Loc(m, Kid(m, p, b), t.kids[b], ChildPath(pre, t.prefix, b), x, xpre, xt)
    ensures Loc(m, p, t, pre, x, xpre, xt)
  {
    hide InnerAt, Kid, ChildPath;
  }

  /** Every address of a tree is somewhere in it. */
  lemma {:induction false} FootLoc(m: Mem, p: Ptr, t: Trie, pre: Key, x: Ptr) returns (xpre: Key, xt: Trie)
    requires At(m, p, t) && x in Foot(m, p, t)
    ensures Loc(m, p, t, pre, x, xpre, xt)
    decreases t
  {
    hide InnerAt, Kid, ChildPath, At, Foot, Loc;
    if x == p {
      xpre, xt := pre, t;
      LocHere(m, p, t, pre);
    } else {
      FootWhere(m, p, t, x);
      var b :| b in t.kids && At(m, Kid(m, p, b), t.kids[b]) && x in Foot(m, Kid(m, p, b), t.kids[b]);
      xpre, xt := FootLoc(m, Kid(m, p, b), t.kids[b], ChildPath(pre, t.prefix, b), x);
      LocLift(m, p, t, pre, b, x, xpre, xt);
    }
  }

  /** In a tree without sharing a node is in one place only. */
  lemma {:induction false} LocUnique(m: Mem, p: Ptr, t: Trie, pre: Key, x: Ptr, xpre: Key, xt: Trie, ypre: Key, yt: Trie)
    requires At(m, p, t) && Apart(m, p, t)
    requires Loc(m, p, t, pre, x, xpre, xt) && Loc(m, p, t, pre, x, ypre, yt)
    ensures xpre == ypre && xt == yt
    decreases t
  {
    hide InnerAt, Kid, ChildPath, At, Foot, Loc, Apart;
    if !(x == p && xpre == pre && xt == t) {
      var b := LocBelow(m, p, t, pre, x, xpre, xt);
      LocAt(m, Kid(m, p, b), t.kids[b], ChildPath(pre, t.prefix, b), x, xpre, xt);
      FootKid(m, p, t, b);
      var c := LocBelow(m, p, t, pre, x, ypre, yt);
      LocAt(m, Kid(m, p, c), t.kids[c], ChildPath(pre, t.prefix, c), x, ypre, yt);
      if b != c {
        FootKids(m, p, t, b, c);
      }
      LocUnique(m, Kid(m, p, b), t.kids[b], ChildPath(pre, t.prefix, b), x, xpre, xt, ypre, yt);
    } else if !(x == p && ypre == pre && yt == t) {
      var c := LocBelow(m, p, t, pre, x, ypre, yt);
      LocAt(m, Kid(m, p, c), t.kids[c], ChildPath(pre, t.prefix, c), x, ypre, yt);
      FootKid(m, p, t, c);
    }
  }

  /** One step further down. */
  lemma {:induction false} LocKid(m: Mem, p: Ptr, t: Trie, pre: Key, x: Ptr, xpre: Key, xt: Trie, b: Byte)
    requires At(m, p, t) && Loc(m, p, t, pre, x, xpre, xt) && xt.Inner? && b in xt.kids
    ensures At(m, x, xt) && At(m, Kid(m, x, b), xt.kids[b])
    ensures Loc(m, p, t, pre, Kid(m, x, b), ChildPath(xpre, xt.prefix, b), xt.kids[b])
    decreases t
  {
    hide InnerAt, Kid, ChildPath, At, Foot, Loc, Apart, WF;
    LocAt(m, p, t, pre, x, xpre, xt);
    FootKid(m, x, xt, b);
    if x == p && xpre == pre && xt == t {
      LocHere(m, Kid(m, p, b), t.kids[b], ChildPath(pre, t.prefix, b));
      LocLift(m, p, t, pre, b, Kid(m, p, b), ChildPath(pre, t.prefix, b), t.kids[b]);
    } else {
      var c := LocBelow(m, p, t, pre, x, xpre, xt);
      LocKid(m, Kid(m, p, c), t.kids[c], ChildPath(pre, t.prefix, c), x, xpre, xt, b);
      LocLift(m, p, t, pre, c, Kid(m, x, b), ChildPath(xpre, xt.prefix, b), xt.kids[b]);
    }
  }

  /** A key whose path runs through a node below `t` leaves `t` by the edge that leads to that node. */
  lemma LocEdge(m: Mem, p: Ptr, t: Trie, pre: Key, b: Byte, x: Ptr, xpre: Key, xt: Trie, k: Key)
    requires At(m, p, t) && t.Inner? && WF(t, pre) && b in t.kids && At(m, Kid(m, p, b), t.kids[b])
    requires Loc(m, Kid(m, p, b), t.kids[b], ChildPath(pre, t.prefix, b), x, xpre, xt)
    requires Through(xpre, k) && Through(pre, k)
    ensures |pre| <= |k| && Agree(t.prefix, k, |pre|) == |t.prefix| && b == EdgeByte(k, |pre| + |t.prefix|)
    ensures Through(ChildPath(pre, t.prefix, b), k)
  {
    hide InnerAt, Kid, ZeroFree, Through, Foot, Apart, EdgeByte, Agree, Loc, At;
    LocAt(m, Kid(m, p, b), t.kids[b], ChildPath(pre, t.prefix, b), x, xpre, xt);
    var rest := xpre[|ChildPath(pre, t.prefix, b)|..];
    assert xpre == ChildPath(pre, t.prefix, b) + rest;
    PathShorter(ChildPath(pre, t.prefix, b), rest, k);
    PathShorter(pre + t.prefix, [b], k);
    PathExtends(pre + t.prefix, k, b);
    PrefixTest(t.prefix, pre, k);
  }

  /** A search that runs through a located node is decided there. */
  lemma {:induction false} LookupAt(m: Mem, p: Ptr, t: Trie, pre: Key, x: Ptr, xpre: Key, xt: Trie, k: Key)
    requires At(m, p, t) && WF(t, pre) && Through(pre, k) && Through(xpre, k)
    requires Loc(m, p, t, pre, x, xpre, xt)
    ensures Lookup(t, k, |pre|) == Lookup(xt, k, |xpre|)
    decreases t
  {
    hide InnerAt, Kid, ZeroFree, Through, Foot, Apart, EdgeByte, Agree, Loc, At;
    if !(x == p && xpre == pre && xt == t) {
      var b := LocBelow(m, p, t, pre, x, xpre, xt);
      LocEdge(m, p, t, pre, b, x, xpre, xt, k);
      LookupAt(m, Kid(m, p, b), t.kids[b], ChildPath(pre, t.prefix, b), x, xpre, xt, k);
    }
  }

  // ---------- Rewriting below one node ----------

  /** The tree with the subtree at address `x` replaced. */
  ghost function PutAt(m: Mem, p: Ptr, t: Trie, x: Ptr, s: Trie): Trie
    requires At(m, p, t) && x in Foot(m, p, t)
    decreases t
  {
    if x == p then s
    else
      FootWhere(m, p, t, x);
      var b :| b in t.kids && At(m, Kid(m, p, b), t.kids[b]) && x in Foot(m, Kid(m, p, b), t.kids[b]);
      Inner(t.prefix, t.kids[b := PutAt(m, Kid(m, p, b), t.kids[b], x, s)])
  }

  /** The edge below which an address lies. */
  lemma PutAtKid(m: Mem, p: Ptr, t: Trie, x: Ptr, s: Trie, b: Byte)
    requires At(m, p, t) && Apart(m, p, t) && t.Inner? && b in t.kids
    requires At(m, Kid(m, p, b), t.kids[b]) && x in Foot(m, Kid(m, p, b), t.kids[b])
    ensures x in Foot(m, p, t) && x != p
    ensures PutAt(m, p, t, x, s) == Inner(t.prefix, t.kids[b := PutAt(m, Kid(m, p, b), t.kids[b], x, s)])
  {
    hide InnerAt, Kid, At, Foot, Apart;
    FootKid(m, p, t, b);
    FootWhere(m, p, t, x);
    forall c | c in t.kids && c != b && At(m, Kid(m, p, c), t.kids[c]) ensures x !in Foot(m, Kid(m, p, c), t.kids[c]) {
      FootKids(m, p, t, b, c);
    }
  }

  /** What a write below `x` must respect for the rest of the tree to carry on unchanged. */
  ghost predicate Confined(m: Mem, m2: Mem, p: Ptr, t: Trie, x: Ptr, xt: Trie, s: Trie)
    requires At(m, p, t)
  {
    && At(m, x, xt) && At(m2, x, s) && Apart(m2, x, s)
    && SameOn(m, m2, Foot(m, p, t) - Foot(m, x, xt))
    && Foot(m2, x, s) !! (Foot(m, p, t) - Foot(m, x, xt))
  }

  lemma ConfinedKid(m: Mem, m2: Mem, p: Ptr, t: Trie, x: Ptr, xt: Trie, s: Trie, b: Byte)
    requires At(m, p, t) && t.Inner? && b in t.kids && Confined(m, m2, p, t, x, xt, s)
    ensures At(m, Kid(m, p, b), t.kids[b]) && Confined(m, m2, Kid(m, p, b), t.kids[b], x, xt, s)
  {
    hide InnerAt, Kid, At, Foot, Apart;
    FootKid(m, p, t, b);
  }

  /** The rest of a node around a rewritten child: the same node and the same other children. */
  lemma AroundKid(m: Mem, m2: Mem, p: Ptr, t: Trie, pre: Key, x: Ptr, xpre: Key, xt: Trie, s: Trie, b: Byte, c: Byte)
    requires At(m, p, t) && Apart(m, p, t) && t.Inner? && b in t.kids && Confined(m, m2, p, t, x, xt, s)
    requires At(m, Kid(m, p, b), t.kids[b]) && Loc(m, Kid(m, p, b), t.kids[b], ChildPath(pre, t.prefix, b), x, xpre, xt)
    ensures SameOn(m, m2, {p})
    ensures c in t.kids && c != b ==> At(m, Kid(m, p, c), t.kids[c]) && SameOn(m, m2, Foot(m, Kid(m, p, c), t.kids[c]))
  {
    hide InnerAt, Kid, At, Foot, Apart, ChildPath, Loc;
    LocAt(m, Kid(m, p, b), t.kids[b], ChildPath(pre, t.prefix, b), x, xpre, xt);
    FootKid(m, p, t, b);
    if c in t.kids && c != b {
      FootKid(m, p, t, c);
      FootKids(m, p, t, b, c);
    }
  }

  /** Rewriting below `x` rewrites the whole tree at `x`, and nowhere else. */
  lemma {:induction false} Rewrite(m: Mem, m2: Mem, p: Ptr, t: Trie, pre: Key, x: Ptr, xpre: Key, xt: Trie, s: Trie)
    requires At(m, p, t) && Apart(m, p, t) && Loc(m, p, t, pre, x, xpre, xt) && Confined(m, m2, p, t, x, xt, s)
    ensures x in Foot(m, p, t) && At(m, x, xt) && At(m2, x, s) && Foot(m, x, xt) <= Foot(m, p, t)
    ensures At(m2, p, PutAt(m, p, t, x, s)) && Apart(m2, p, PutAt(m, p, t, x, s))
    ensures Foot(m2, p, PutAt(m, p, t, x, s)) == Foot(m, p, t) - Foot(m, x, xt) + Foot(m2, x, s)
    decreases t
  {
    hide InnerAt, Kid, ChildPath, Confined, Loc, At, Apart, Foot, WF;
    LocAt(m, p, t, pre, x, xpre, xt);
    if x == p {
      LocHere(m, p, t, pre);
      LocUnique(m, p, t, pre, x, xpre, xt, pre, t);
      WholeConfined(m, m2, p, t, s);
    } else {
      var b := LocBelow(m, p, t, pre, x, xpre, xt);
      LocAt(m, Kid(m, p, b), t.kids[b], ChildPath(pre, t.prefix, b), x, xpre, xt);
      ConfinedKid(m, m2, p, t, x, xt, s, b);
      FootKid(m, p, t, b);
      Rewrite(m, m2, Kid(m, p, b), t.kids[b], ChildPath(pre, t.prefix, b), x, xpre, xt, s);
      PutAtKid(m, p, t, x, s, b);
      forall c ensures SameOn(m, m2, {p})
        ensures c in t.kids && c != b ==> At(m, Kid(m, p, c), t.kids[c]) && SameOn(m, m2, Foot(m, Kid(m, p, c), t.kids[c]))
      {
        AroundKid(m, m2, p, t, pre, x, xpre, xt, s, b, c);
      }
      NewApart(m, m2, p, t, x, xt, s);
      RewriteAround(m, m2, p, t, b, PutAt(m, Kid(m, p, b), t.kids[b], x, s), Foot(m, x, xt), Foot(m2, x, s));
    }
  }

  lemma NewApart(m: Mem, m2: Mem, p: Ptr, t: Trie, x: Ptr, xt: Trie, s: Trie)
    requires At(m, p, t) && Confined(m, m2, p, t, x, xt, s)
    ensures At(m2, x, s) && At(m, x, xt) && Foot(m2, x, s) !! (Foot(m, p, t) - Foot(m, x, xt))
  {
  }

  lemma WholeConfined(m: Mem, m2: Mem, p: Ptr, t: Trie, s: Trie)
    requires At(m, p, t) && Confined(m, m2, p, t, p, t, s)
    ensures At(m2, p, s) && Apart(m2, p, s) && Foot(m2, p, s) == Foot(m, p, t) - Foot(m, p, t) + Foot(m2, p, s)
  {
  }

  /** One level of the rewrite: child `b` now stands for `u`. */
  lemma RewriteAround(m: Mem, m2: Mem, p: Ptr, t: Trie, b: Byte, u: Trie, gone: set<Ptr>, here: set<Ptr>)
    requires At(m, p, t) && Apart(m, p, t) && t.Inner? && b in t.kids && SameOn(m, m2, {p})
    requires forall c :: c in t.kids && c != b ==> At(m, Kid(m, p, c), t.kids[c]) && SameOn(m, m2, Foot(m, Kid(m, p, c), t.kids[c]))
    requires At(m, Kid(m, p, b), t.kids[b]) && At(m2, Kid(m, p, b), u) && Apart(m2, Kid(m, p, b), u)
    requires gone <= Foot(m, Kid(m, p, b), t.kids[b]) && here !! (Foot(m, p, t) - gone)
    requires Foot(m2, Kid(m, p, b), u) == Foot(m, Kid(m, p, b), t.kids[b]) - gone + here
    ensures var t2 := Inner(t.prefix, t.kids[b := u]);
            At(m2, p, t2) && Apart(m2, p, t2) && Foot(m2, p, t2) == Foot(m, p, t) - gone + here
  {
    hide Shape, Find, Kids, Union, Disjoint, Foot, Feet, Apart;
    var t2 := Inner(t.prefix, t.kids[b := u]);
    assert t2.kids.Keys == t.kids.Keys;
    assert m2[p] == m[p] by { assert p in {p}; }
    forall c | c in t.kids && c != b
      ensures At(m2, Kid(m, p, c), t.kids[c]) && Apart(m2, Kid(m, p, c), t.kids[c])
      ensures Foot(m2, Kid(m, p, c), t.kids[c]) == Foot(m, Kid(m, p, c), t.kids[c])
    {
      FootKid(m, p, t, c);
      Frame(m, m2, Kid(m, p, c), t.kids[c]);
      FrameApart(m, m2, Kid(m, p, c), t.kids[c]);
    }
    forall c ensures Kid(m2, p, c) == Kid(m, p, c) {}
    assert At(m2, p, t2);
    RewriteFeet(m, m2, p, t, b, u, gone, here);
  }

  lemma RewriteFeet(m: Mem, m2: Mem, p: Ptr, t: Trie, b: Byte, u: Trie, gone: set<Ptr>, here: set<Ptr>)
    requires At(m, p, t) && Apart(m, p, t) && t.Inner? && b in t.kids
    requires At(m2, p, Inner(t.prefix, t.kids[b := u])) && forall c :: Kid(m2, p, c) == Kid(m, p, c)
    requires At(m, Kid(m, p, b), t.kids[b]) && At(m2, Kid(m, p, b), u) && Apart(m2, Kid(m, p, b), u)
    requires gone <= Foot(m, Kid(m, p, b), t.kids[b]) && here !! (Foot(m, p, t) - gone)
    requires Foot(m2, Kid(m, p, b), u) == Foot(m, Kid(m, p, b), t.kids[b]) - gone + here
    requires forall c :: c in t.kids && c != b ==>
               && At(m, Kid(m, p, c), t.kids[c]) && At(m2, Kid(m, p, c), t.kids[c]) && Apart(m2, Kid(m, p, c), t.kids[c])
               && Foot(m2, Kid(m, p, c), t.kids[c]) == Foot(m, Kid(m, p, c), t.kids[c])
    ensures var t2 := Inner(t.prefix, t.kids[b := u]);
            Apart(m2, p, t2) && Foot(m2, p, t2) == Foot(m, p, t) - gone + here
  {
    hide Kid, At, Foot, Feet, Union, Disjoint;
    var t2 := Inner(t.prefix, t.kids[b := u]);
    FeetAre(m, p, t);
    FeetAre(m2, p, t2);
    assert Feet(m2, p, t2) == Feet(m, p, t)[b := Feet(m, p, t)[b] - gone + here];
    SwapSet(Feet(m, p, t), b, gone, here, p);
  }

  lemma SwapSet(f: map<Byte, set<Ptr>>, b: Byte, gone: set<Ptr>, here: set<Ptr>, p: Ptr)
    requires b in f && Disjoint(f) && p !in Union(f) && gone <= f[b] && here !! ({p} + Union(f) - gone)
    ensures var g := f[b := f[b] - gone + here];
            Disjoint(g) && p !in Union(g) && {p} + Union(g) == {p} + Union(f) - gone + here
  {
    var g := f[b := f[b] - gone + here];
    forall q ensures q in Union(g) <==> q in Union(f) - gone + here {
      if c :| c in f && q in f[c] && c != b { assert c in g && q in g[c] && q !in gone; }
      if q in f[b] - gone + here { assert q in g[b]; }
    }
    assert gone <= Union(f) by { forall q | q in gone ensures q in Union(f) { assert q in f[b]; } }
    assert p in {p} + Union(f) - gone;
    forall c | c in f && c != b ensures f[c] !! g[b] {
      forall q | q in f[c] ensures q !in here { assert q in Union(f) - gone; }
    }
  }

  /** Nodes outside the rewritten part stay where they are. */
  lemma {:induction false} RewriteKeeps(m: Mem, m2: Mem, p: Ptr, t: Trie, pre: Key, x: Ptr, xpre: Key, xt: Trie, s: Trie,
      y: Ptr, ypre: Key, yt: Trie) returns (yt2: Trie)
    requires At(m, p, t) && Apart(m, p, t) && Loc(m, p, t, pre, x, xpre, xt) && Confined(m, m2, p, t, x, xt, s)
    requires At(m, x, xt) && Loc(m, p, t, pre, y, ypre, yt) && y !in Foot(m, x, xt)
    ensures x in Foot(m, p, t) && At(m2, p, PutAt(m, p, t, x, s))
    ensures Loc(m2, p, PutAt(m, p, t, x, s), pre, y, ypre, yt2)
    decreases t
  {
    hide InnerAt, Kid, ChildPath, Confined, Loc, At, Apart, Foot, WF, PutAt, SameOn;
    Rewrite(m, m2, p, t, pre, x, xpre, xt, s);
    var u := PutAt(m, p, t, x, s);
    SelfInFoot(m, x, xt);
    if x == p {
      LocHere(m, p, t, pre);
      LocUnique(m, p, t, pre, x, xpre, xt, pre, t);
      LocAt(m, p, t, pre, y, ypre, yt);
    } else if y == p && ypre == pre && yt == t {
      LocHere(m2, p, u, pre);
      yt2 := u;
    } else {
      var b := LocBelow(m, p, t, pre, x, xpre, xt);
      LocAt(m, Kid(m, p, b), t.kids[b], ChildPath(pre, t.prefix, b), x, xpre, xt);
      FootKid(m, p, t, b);
      ConfinedKid(m, m2, p, t, x, xt, s, b);
      PutAtKid(m, p, t, x, s, b);
      var c := LocBelow(m, p, t, pre, y, ypre, yt);
      AroundKid(m, m2, p, t, pre, x, xpre, xt, s, b, c);
      KidsSame(m, m2, p);
      if c == b {
        yt2 := RewriteKeeps(m, m2, Kid(m, p, b), t.kids[b], ChildPath(pre, t.prefix, b), x, xpre, xt, s, y, ypre, yt);
      } else {
        FootKid(m, p, t, c);
        FrameApart(m, m2, Kid(m, p, c), t.kids[c]);
        FrameLoc(m, m2, Kid(m, p, c), t.kids[c], ChildPath(pre, t.prefix, c), y, ypre, yt);
        yt2 := yt;
      }
      LocLift(m2, p, u, pre, c, y, ypre, yt2);
    }
  }

  lemma KidsSame(m: Mem, m2: Mem, p: Ptr)
    requires SameOn(m, m2, {p})
    ensures forall c :: Kid(m2, p, c) == Kid(m, p, c)
  {
    hide Find, Shape;
    assert p in {p};
  }

  /** Nodes of the new part are located below the rewritten node's path. */
  lemma {:induction false} RewriteNew(m: Mem, m2: Mem, p: Ptr, t: Trie, pre: Key, x: Ptr, xpre: Key, xt: Trie, s: Trie,
      y: Ptr, ypre: Key, yt: Trie)
    requires At(m, p, t) && Apart(m, p, t) && Loc(m, p, t, pre, x, xpre, xt) && Confined(m, m2, p, t, x, xt, s)
    requires At(m2, x, s) && Loc(m2, x, s, xpre, y, ypre, yt)
    ensures x in Foot(m, p, t) && At(m2, p, PutAt(m, p, t, x, s))
    ensures Loc(m2, p, PutAt(m, p, t, x, s), pre, y, ypre, yt)
    decreases t
  {
    hide InnerAt, Kid, ChildPath, Confined, Loc, At, Apart, Foot, WF, SameOn;
    Rewrite(m, m2, p, t, pre, x, xpre, xt, s);
    if x == p {
      LocHere(m, p, t, pre);
      LocUnique(m, p, t, pre, x, xpre, xt, pre, t);
    } else {
      var b := LocBelow(m, p, t, pre, x, xpre, xt);
      LocAt(m, Kid(m, p, b), t.kids[b], ChildPath(pre, t.prefix, b), x, xpre, xt);
      FootKid(m, p, t, b);
      ConfinedKid(m, m2, p, t, x, xt, s, b);
      PutAtKid(m, p, t, x, s, b);
      AroundKid(m, m2, p, t, pre, x, xpre, xt, s, b, b);
      KidsSame(m, m2, p);
      RewriteNew(m, m2, Kid(m, p, b), t.kids[b], ChildPath(pre, t.prefix, b), x, xpre, xt, s, y, ypre, yt);
      LocLift(m2, p, PutAt(m, p, t, x, s), pre, b, y, ypre, yt);
    }
  }

  // ---------- Insert and delete seen from a node on the key's path ----------

  /** Inserting is inserting below any node that the key's search runs through. */
  lemma {:induction false} InsAt(m: Mem, p: Ptr, t: Trie, pre: Key, x: Ptr, xpre: Key, xt: Trie, k: Key, v: Val)
    requires At(m, p, t) && Apart(m, p, t) && Loc(m, p, t, pre, x, xpre, xt)
    requires WF(t, pre) && ZeroFree(k) && Through(pre, k) && Through(xpre, k)
    ensures x in Foot(m, p, t) && WF(xt, xpre)
    ensures Ins(t, k, v, pre) == PutAt(m, p, t, x, Ins(xt, k, v, xpre))
    decreases t
  {
    hide InnerAt, Kid, Through, ZeroFree, Foot, Apart, Loc, At, Agree, EdgeByte;
    LocAt(m, p, t, pre, x, xpre, xt);
    if x == p {
      LocHere(m, p, t, pre);
      LocUnique(m, p, t, pre, x, xpre, xt, pre, t);
    } else {
      var b := LocBelow(m, p, t, pre, x, xpre, xt);
      LocAt(m, Kid(m, p, b), t.kids[b], ChildPath(pre, t.prefix, b), x, xpre, xt);
      FootKid(m, p, t, b);
      LocEdge(m, p, t, pre, b, x, xpre, xt, k);
      InsAt(m, Kid(m, p, b), t.kids[b], ChildPath(pre, t.prefix, b), x, xpre, xt, k, v);
      PutAtKid(m, p, t, x, Ins(xt, k, v, xpre), b);
    }
  }

  lemma {:induction false} DelAt(m: Mem, p: Ptr, t: Trie, pre: Key, x: Ptr, xpre: Key, xt: Trie, k: Key, body: Key)
    requires At(m, p, t) && Apart(m, p, t) && Loc(m, p, t, pre, x, xpre, xt) && xt.Inner?
    requires WF(t, pre) && ZeroFree(k) && Through(pre, k) && Through(xpre, k)
    ensures x in Foot(m, p, t) && t.Inner?
    ensures DelInner(t, k, |pre|, body) == PutAt(m, p, t, x, DelInner(xt, k, |xpre|, body))
    ensures DelFits(t, k, |pre|) <==> DelFits(xt, k, |xpre|)
    ensures DelReads(t, k, |pre|, body) <==> DelReads(xt, k, |xpre|, body)
    decreases t
  {
    hide InnerAt, Kid, Through, ZeroFree, Foot, Apart, Loc, At, Agree, EdgeByte, Without, Fits, Reads;
    LocAt(m, p, t, pre, x, xpre, xt);
    if x == p {
      LocHere(m, p, t, pre);
      LocUnique(m, p, t, pre, x, xpre, xt, pre, t);
    } else {
      var b := LocBelow(m, p, t, pre, x, xpre, xt);
      LocAt(m, Kid(m, p, b), t.kids[b], ChildPath(pre, t.prefix, b), x, xpre, xt);
      FootKid(m, p, t, b);
      LocEdge(m, p, t, pre, b, x, xpre, xt, k);
      DelAt(m, Kid(m, p, b), t.kids[b], ChildPath(pre, t.prefix, b), x, xpre, xt, k, body);
      PutAtKid(m, p, t, x, DelInner(xt, k, |xpre|, body), b);
    }
  }
}
