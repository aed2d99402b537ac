/** The radix tree as a value: what a tree of nodes means once addresses, node kinds and
    child slots are forgotten. Search, insert and delete are given branch by branch as the
    index runs them, and everything the index promises is proved about these functions. */
module ArtTrie {
  import opened Options
  import opened Bytes

  type Val = seq<Byte>

  datatype Trie =
    | Leaf(key: Key, val: Val)
    | Inner(prefix: Key, kids: map<Byte, Trie>)

  /** The search for `k` runs through the node whose path is `p`. */
  ghost predicate Through(p: Key, k: Key) {
    p <= Term(k)
  }

  ghost function ChildPath(pre: Key, prefix: Key, b: Byte): Key {
    pre + prefix + [b]
  }

  /** `t` hangs below the path bytes `pre`: its leaves' terminated keys continue `pre`, and every
      inner node really branches. */
  ghost predicate WF(t: Trie, pre: Key) {
    match t
    case Leaf(k, _) => ZeroFree(k) && Through(pre, k)
    case Inner(prefix, kids) =>
      && ZeroFree(pre + prefix)
      && |kids| >= 2
      && forall b :: b in kids ==> WF(kids[b], ChildPath(pre, prefix, b))
  }

  ghost predicate Has(t: Trie, k: Key, v: Val) {
    match t
    case Leaf(lk, lv) => lk == k && lv == v
    case Inner(_, kids) => exists b :: b in kids && Has(kids[b], k, v)
  }

  // ---------- Paths ----------

  /** An inner node's path is zero-free, so a key that passes it is not yet exhausted. */
  lemma PathInside(p: Key, k: Key)
    requires ZeroFree(p) && Through(p, k)
    ensures |p| <= |k| && p == k[..|p|]
  {
    assert Term(k)[|k|] == 0;
    assert p == Term(k)[..|p|];
  }

  lemma PrefixOfPath(p: Key, k: Key, n: nat)
    requires n <= |k| && p == k[..n]
    ensures Through(p, k)
  {
    assert Term(k)[..n] == k[..n];
  }

  lemma PathShorter(p: Key, x: Key, k: Key)
    requires Through(p + x, k)
    ensures Through(p, k)
  {
    assert p == (p + x)[..|p|] == Term(k)[..|p|];
  }

  lemma ZeroFreePart(p: Key, x: Key)
    requires ZeroFree(p + x)
    ensures ZeroFree(p) && ZeroFree(x)
  {
    forall i | 0 <= i < |p| ensures p[i] != 0 { assert p[i] == (p + x)[i]; }
    forall i | 0 <= i < |x| ensures x[i] != 0 { assert x[i] == (p + x)[|p| + i]; }
  }

  /** Only the edge that a key selects keeps the path on that key. */
  lemma PathExtends(p: Key, k: Key, b: Byte)
    requires ZeroFree(p) && Through(p, k)
    ensures Through(p + [b], k) <==> b == EdgeByte(k, |p|)
  {
    PathInside(p, k);
    assert Term(k)[|p|] == EdgeByte(k, |p|);
    assert Term(k)[..|p| + 1] == p + [EdgeByte(k, |p|)];
    assert (p + [b])[|p|] == b;
  }

  /** The prefix test of a node accepts exactly the keys whose path runs through the whole prefix. */
  lemma PrefixTest(prefix: Key, pre: Key, k: Key)
    requires ZeroFree(pre + prefix) && Through(pre, k)
    ensures |pre| <= |k|
    ensures Agree(prefix, k, |pre|) == |prefix| <==> Through(pre + prefix, k)
  {
    ZeroFreePart(pre, prefix);
    PathInside(pre, k);
    hide Through, Common;
    CommonIs(prefix, 0, k, |pre|);
    if Agree(prefix, k, |pre|) == |prefix| {
      PrefixAccepted(prefix, pre, k);
    }
    if Through(pre + prefix, k) {
      PathInside(pre + prefix, k);
      PrefixRefused(prefix, pre, k, Agree(prefix, k, |pre|));
    }
  }

  lemma PrefixRefused(prefix: Key, pre: Key, k: Key, r: nat)
    requires |pre| + |prefix| <= |k| && pre + prefix == k[..|pre| + |prefix|] && r <= |prefix|
    requires r < |prefix| && |pre| + r < |k| ==> prefix[r] != k[|pre| + r]
    ensures r == |prefix|
  {
    assert forall i :: 0 <= i < |prefix| ==> (pre + prefix)[|pre| + i] == prefix[i];
  }

  lemma PrefixAccepted(prefix: Key, pre: Key, k: Key)
    requires |pre| <= |k| && pre == k[..|pre|] && Agree(prefix, k, |pre|) == |prefix|
    ensures Through(pre + prefix, k)
  {
    var n := |pre| + |prefix|;
    CommonIs(prefix, 0, k, |pre|);
    assert prefix == prefix[..|prefix|] == k[|pre|..n];
    assert k[..n] == k[..|pre|] + k[|pre|..n];
    PrefixOfPath(pre + prefix, k, n);
  }

  // ---------- Search ----------

  /** The descent of a search that has matched `d` bytes. */
  function Lookup(t: Trie, k: Key, d: nat): Option<Val> {
    match t
    case Leaf(lk, lv) => if lk == k then Some(lv) else None
    case Inner(prefix, kids) =>
      if d > |k| || Agree(prefix, k, d) != |prefix| then None
      else
        var b := EdgeByte(k, d + |prefix|);
        if b in kids then Lookup(kids[b], k, d + |prefix| + 1) else None
  }

  lemma {:induction false} HasPath(t: Trie, pre: Key, k: Key, v: Val)
    requires WF(t, pre) && Has(t, k, v)
    ensures ZeroFree(k) && Through(pre, k)
  {
    hide Through, ZeroFree;
    if t.Inner? {
      var b :| b in t.kids && Has(t.kids[b], k, v);
      HasPath(t.kids[b], ChildPath(pre, t.prefix, b), k, v);
      assert ChildPath(pre, t.prefix, b) == pre + (t.prefix + [b]);
      PathShorter(pre, t.prefix + [b], k);
    }
  }

  /** A key stored below an inner node passes its whole prefix and leaves by the edge it selects. */
  lemma HasEdge(t: Trie, pre: Key, k: Key, v: Val, b: Byte)
    requires t.Inner? && WF(t, pre) && b in t.kids && Has(t.kids[b], k, v)
    ensures ZeroFree(k) && Through(pre + t.prefix, k) && b == EdgeByte(k, |pre| + |t.prefix|)
  {
    hide Through, ZeroFree;
    var p := pre + t.prefix;
    HasPath(t.kids[b], ChildPath(pre, t.prefix, b), k, v);
    PathShorter(p, [b], k);
    PathExtends(p, k, b);
  }

  /** Search reads the tree: it answers exactly the value stored for the key. */
  lemma {:induction false} LookupIsHas(t: Trie, pre: Key, k: Key, v: Val)
    requires WF(t, pre) && ZeroFree(k) && Through(pre, k)
    ensures Lookup(t, k, |pre|) == Some(v) <==> Has(t, k, v)
  {
    hide Through, ZeroFree, Agree, EdgeByte;
    if t.Inner? {
      var p := pre + t.prefix;
      PrefixTest(t.prefix, pre, k);
      var b := EdgeByte(k, |p|);
      forall c | c in t.kids && Has(t.kids[c], k, v) ensures c == b && Through(p, k) {
        HasEdge(t, pre, k, v, c);
      }
      if Through(p, k) && b in t.kids {
        PathExtends(p, k, b);
        LookupIsHas(t.kids[b], ChildPath(pre, t.prefix, b), k, v);
      }
    }
  }

  // ---------- Insert ----------

  /** The node made when a new key parts from a stored leaf below path `pre`. */
  ghost function SplitLeaf(t: Trie, k: Key, v: Val, d: nat): Trie
    requires t.Leaf? && d <= |k| && d <= |t.key|
  {
    var p := Common(t.key, d, k, d);
    Inner(k[d..d + p], map[EdgeByte(t.key, d + p) := t, EdgeByte(k, d + p) := Leaf(k, v)])
  }

  /** The node made when a new key leaves a compressed path after `p` of its bytes. */
  ghost function SplitPrefix(t: Trie, k: Key, v: Val, d: nat, p: nat): Trie
    requires t.Inner? && p < |t.prefix|
  {
    Inner(t.prefix[..p], map[t.prefix[p] := Inner(t.prefix[p + 1..], t.kids), EdgeByte(k, d + p) := Leaf(k, v)])
  }

  /** Insert below path `pre`: replace the leaf, split it, split a prefix, add a child, or descend. */
  ghost function Ins(t: Trie, k: Key, v: Val, pre: Key): Trie
    requires WF(t, pre) && ZeroFree(k) && Through(pre, k)
  {
    match t
    case Leaf(lk, _) =>
      if lk == k then Leaf(k, v)
      else
        LeafDepth(t, k, pre);
        SplitLeaf(t, k, v, |pre|)
    case Inner(prefix, kids) =>
      PrefixTest(prefix, pre, k);
      var p := Agree(prefix, k, |pre|);
      if p != |prefix| then SplitPrefix(t, k, v, |pre|, p)
      else
        var b := EdgeByte(k, |pre| + |prefix|);
        PathExtends(pre + prefix, k, b);
        Inner(prefix, kids[b := if b in kids then Ins(kids[b], k, v, ChildPath(pre, prefix, b)) else Leaf(k, v)])
  }

  /** A leaf that a different key reaches lies no deeper than either key is long. */
  lemma LeafDepth(t: Trie, k: Key, pre: Key)
    requires t.Leaf? && WF(t, pre) && ZeroFree(k) && Through(pre, k) && t.key != k
    ensures |pre| <= |k| && |pre| <= |t.key|
    ensures k[..|pre|] == pre == t.key[..|pre|]
  {
    SharedPath(pre, k, t.key);
    SharedPath(pre, t.key, k);
  }

  lemma SharedPath(p: Key, a: Key, b: Key)
    requires ZeroFree(a) && ZeroFree(b) && Through(p, a) && Through(p, b) && a != b
    ensures |p| <= |a| && p == a[..|p|]
  {
    if |p| == |a| + 1 {
      WholePath(p, a, b);
    } else {
      assert p == Term(a)[..|p|] == a[..|p|];
    }
  }

  lemma WholePath(p: Key, a: Key, b: Key)
    requires ZeroFree(a) && ZeroFree(b) && Through(p, a) && Through(p, b) && |p| == |a| + 1
    ensures a == b
  {
    assert Term(b)[|a|] == p[|a|] == Term(a)[|a|] == 0;
    assert a == p[..|a|] == b[..|a|];
  }

  lemma LeafIs(t: Trie, pre: Key)
    requires t.Leaf?
    ensures WF(t, pre) <==> ZeroFree(t.key) && Through(pre, t.key)
    ensures forall k, v :: Has(t, k, v) <==> (k == t.key && v == t.val)
  {
  }

  lemma InnerPath(t: Trie, pre: Key)
    requires t.Inner? && WF(t, pre)
    ensures ZeroFree(pre + t.prefix)
  {
  }

  /** A two-way branch is well formed when its two subtrees are, and holds what they hold. */
  lemma BranchCorrect(prefix: Key, b1: Byte, t1: Trie, b2: Byte, t2: Trie, pre: Key)
    requires ZeroFree(pre + prefix) && b1 != b2
    requires WF(t1, ChildPath(pre, prefix, b1)) && WF(t2, ChildPath(pre, prefix, b2))
    ensures WF(Inner(prefix, map[b1 := t1, b2 := t2]), pre)
    ensures forall k, v :: Has(Inner(prefix, map[b1 := t1, b2 := t2]), k, v) <==> Has(t1, k, v) || Has(t2, k, v)
  {
    hide ZeroFree, ChildPath;
    var kids := map[b1 := t1, b2 := t2];
    assert kids.Keys == {b1, b2};
    assert |kids| == |kids.Keys| == 2;
    forall k, v ensures Has(Inner(prefix, kids), k, v) <==> Has(t1, k, v) || Has(t2, k, v) {
      assert kids[b1] == t1 && kids[b2] == t2;
    }
  }

  lemma SplitLeafCorrect(t: Trie, k: Key, v: Val, pre: Key)
    requires t.Leaf? && WF(t, pre) && ZeroFree(k) && Through(pre, k) && t.key != k
    ensures |pre| <= |k| && |pre| <= |t.key|
    ensures WF(SplitLeaf(t, k, v, |pre|), pre)
    ensures forall k2, v2 :: Has(SplitLeaf(t, k, v, |pre|), k2, v2) <==> Has(t, k2, v2) || (k2 == k && v2 == v)
  {
    hide Through, ZeroFree, Common, EdgeByte, ChildPath, WF, Has;
    LeafDepth(t, k, pre);
    LeafIs(t, pre);
    var d := |pre|;
    var p := Common(t.key, d, k, d);
    var b1, b2 := EdgeByte(t.key, d + p), EdgeByte(k, d + p);
    SplitPath(t.key, k, pre);
    LeafIs(t, ChildPath(pre, k[d..d + p], b1));
    LeafIs(Leaf(k, v), ChildPath(pre, k[d..d + p], b2));
    BranchCorrect(k[d..d + p], b1, t, b2, Leaf(k, v), pre);
  }

  /** Where two distinct keys that share `pre` part: on different edges below a common path. */
  lemma SplitPath(a: Key, k: Key, pre: Key)
    requires ZeroFree(a) && ZeroFree(k) && a != k
    requires |pre| <= |a| && |pre| <= |k| && a[..|pre|] == pre == k[..|pre|]
    ensures var d := |pre|; var p := Common(a, d, k, d); var path := pre + k[d..d + p];
            && EdgeByte(a, d + p) != EdgeByte(k, d + p)
            && ZeroFree(path)
            && Through(ChildPath(pre, k[d..d + p], EdgeByte(a, d + p)), a)
            && Through(ChildPath(pre, k[d..d + p], EdgeByte(k, d + p)), k)
  {
    var d := |pre|;
    var p := Common(a, d, k, d);
    CommonIs(a, d, k, d);
    var path := pre + k[d..d + p];
    assert path == k[..d + p];
    assert path == a[..d + p];
    TermSplits(a, k, d + p);
    PrefixOfPath(path, k, d + p);
    PrefixOfPath(path, a, d + p);
    PathExtends(path, k, EdgeByte(k, d + p));
    PathExtends(path, a, EdgeByte(a, d + p));
  }

  lemma SplitPrefixCorrect(t: Trie, k: Key, v: Val, pre: Key)
    requires t.Inner? && WF(t, pre) && ZeroFree(k) && Through(pre, k)
    requires |pre| <= |k| && Agree(t.prefix, k, |pre|) < |t.prefix|
    ensures WF(SplitPrefix(t, k, v, |pre|, Agree(t.prefix, k, |pre|)), pre)
    ensures forall k2, v2 :: Has(SplitPrefix(t, k, v, |pre|, Agree(t.prefix, k, |pre|)), k2, v2)
                             <==> Has(t, k2, v2) || (k2 == k && v2 == v)
  {
    hide Through, ZeroFree, Agree, Common, EdgeByte, ChildPath, WF, Has;
    var p := Agree(t.prefix, k, |pre|);
    var b1, b2 := t.prefix[p], EdgeByte(k, |pre| + p);
    var low := Inner(t.prefix[p + 1..], t.kids);
    InnerPath(t, pre);
    LeavesPrefix(t.prefix, k, pre);
    SameChildren(t, low, pre, ChildPath(pre, t.prefix[..p], b1));
    LeafIs(Leaf(k, v), ChildPath(pre, t.prefix[..p], b2));
    BranchCorrect(t.prefix[..p], b1, low, b2, Leaf(k, v), pre);
  }

  /** Two inner nodes with the same full path and the same children are equally well formed. */
  lemma SameChildren(t: Trie, u: Trie, pre: Key, pre2: Key)
    requires t.Inner? && u.Inner? && WF(t, pre) && u.kids == t.kids && pre + t.prefix == pre2 + u.prefix
    ensures WF(u, pre2)
    ensures forall k, v :: Has(u, k, v) <==> Has(t, k, v)
  {
    hide ZeroFree;
    forall b | b in t.kids ensures WF(u.kids[b], ChildPath(pre2, u.prefix, b)) {
      assert WF(t.kids[b], ChildPath(pre, t.prefix, b));
    }
  }

  /** A key that leaves a compressed path inside it. */
  lemma LeavesPrefix(prefix: Key, k: Key, pre: Key)
    requires ZeroFree(pre + prefix) && ZeroFree(k) && Through(pre, k)
    requires |pre| <= |k| && Agree(prefix, k, |pre|) < |prefix|
    ensures var p := Agree(prefix, k, |pre|);
            && prefix[p] != EdgeByte(k, |pre| + p)
            && ZeroFree(pre + prefix[..p])
            && Through(ChildPath(pre, prefix[..p], EdgeByte(k, |pre| + p)), k)
            && ChildPath(pre, prefix[..p], prefix[p]) + prefix[p + 1..] == pre + prefix
  {
    var p := Agree(prefix, k, |pre|);
    ZeroFreePart(pre, prefix);
    PathInside(pre, k);
    hide Through, Common;
    CommonIs(prefix, 0, k, |pre|);
    CutPath(pre, prefix, p);
    PathToCut(pre, prefix, k, p);
    PathExtends(pre + prefix[..p], k, EdgeByte(k, |pre| + p));
  }

  lemma CutPath(pre: Key, prefix: Key, p: nat)
    requires p < |prefix|
    ensures ChildPath(pre, prefix[..p], prefix[p]) + prefix[p + 1..] == pre + prefix
    ensures ZeroFree(pre + prefix) ==> ZeroFree(pre + prefix[..p])
  {
    assert pre + prefix[..p] == (pre + prefix)[..|pre| + p];
  }

  lemma PathToCut(pre: Key, prefix: Key, k: Key, p: nat)
    requires |pre| + p <= |k| && p <= |prefix| && pre == k[..|pre|] && prefix[..p] == k[|pre|..|pre| + p]
    ensures Through(pre + prefix[..p], k)
  {
    assert pre + prefix[..p] == k[..|pre| + p];
    PrefixOfPath(pre + prefix[..p], k, |pre| + p);
  }

  /** Insert keeps the tree well formed, sets the key's value, and touches no other key. */
  lemma {:induction false} InsCorrect(t: Trie, k: Key, v: Val, pre: Key)
    requires WF(t, pre) && ZeroFree(k) && Through(pre, k)
    ensures WF(Ins(t, k, v, pre), pre)
    ensures forall k2, v2 :: Has(Ins(t, k, v, pre), k2, v2) <==> if k2 == k then v2 == v else Has(t, k2, v2)
    decreases t, 1
  {
    hide Through, ZeroFree, Agree, EdgeByte, SplitLeaf, SplitPrefix;
    match t
    case Leaf(lk, _) =>
      if lk != k {
        SplitLeafCorrect(t, k, v, pre);
      }
    case Inner(prefix, kids) =>
      PrefixTest(prefix, pre, k);
      if Agree(prefix, k, |pre|) != |prefix| {
        SplitPrefixCorrect(t, k, v, pre);
        forall v2 ensures !Has(t, k, v2) {
          LookupIsHas(t, pre, k, v2);
        }
      } else {
        InsBelow(t, k, v, pre);
      }
  }

  /** The step of insert that descends or adds a child. */
  lemma {:induction false} InsBelow(t: Trie, k: Key, v: Val, pre: Key)
    requires t.Inner? && WF(t, pre) && ZeroFree(k) && Through(pre, k)
    requires |pre| <= |k| && Agree(t.prefix, k, |pre|) == |t.prefix|
    ensures WF(Ins(t, k, v, pre), pre)
    ensures forall k2, v2 :: Has(Ins(t, k, v, pre), k2, v2) <==> if k2 == k then v2 == v else Has(t, k2, v2)
    decreases t, 0
  {
    hide Through, ZeroFree, Agree, EdgeByte;
    var b := EdgeByte(k, |pre| + |t.prefix|);
    var s := Ins(t, k, v, pre);
    PrefixTest(t.prefix, pre, k);
    PathExtends(pre + t.prefix, k, b);
    if b in t.kids {
      InsCorrect(t.kids[b], k, v, ChildPath(pre, t.prefix, b));
    }
    MoreKids(t.kids, b, s.kids[b]);
    forall k2, v2 ensures Has(s, k2, v2) <==> if k2 == k then v2 == v else Has(t, k2, v2) {
      KidsHas(t, s, b, k, v, pre, k2, v2);
    }
  }

  lemma MoreKids(kids: map<Byte, Trie>, b: Byte, s: Trie)
    ensures |kids[b := s]| >= |kids|
  {
    assert kids[b := s].Keys == kids.Keys + {b};
    assert |kids.Keys| == |kids| && |kids[b := s].Keys| == |kids[b := s]|;
    if b in kids { assert kids.Keys + {b} == kids.Keys; } else { assert |kids.Keys + {b}| == |kids.Keys| + 1; }
  }

  /** Replacing the child on the key's own edge changes the contents at that key only. */
  lemma KidsHas(t: Trie, s: Trie, b: Byte, k: Key, v: Val, pre: Key, k2: Key, v2: Val)
    requires t.Inner? && WF(t, pre) && b == EdgeByte(k, |pre| + |t.prefix|)
    requires s.Inner? && b in s.kids && s.kids == t.kids[b := s.kids[b]]
    requires Has(s.kids[b], k2, v2) <==> if k2 == k then v2 == v else b in t.kids && Has(t.kids[b], k2, v2)
    ensures Has(s, k2, v2) <==> if k2 == k then v2 == v else Has(t, k2, v2)
  {
    hide Through, ZeroFree, EdgeByte;
    forall c | c in t.kids && c != b && Has(t.kids[c], k2, v2) ensures k2 != k {
      HasEdge(t, pre, k2, v2, c);
    }
    if k2 != k && Has(t, k2, v2) {
      var c :| c in t.kids && Has(t.kids[c], k2, v2);
      assert c in s.kids && Has(s.kids[c], k2, v2);
    }
    if Has(s, k2, v2) {
      var c :| c in s.kids && Has(s.kids[c], k2, v2);
    }
  }
}
