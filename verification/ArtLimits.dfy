/** What a node has room for: its count is one byte, its header keeps 64 prefix bytes. Trees within these
    limits stay within them under every insert that fits, and under every delete whose collapse fits. */
module ArtLimits {
  import opened Options
  import opened Bytes
  import opened ArtTrie
  import opened ArtTrieDelete

  /** The largest count that one byte holds. */
  const MOST_CHILDREN := 255

  /** Every node's children can be counted and its prefix can be stored. */
  ghost predicate Roomy(t: Trie) {
    t.Inner? ==>
      |t.prefix| <= PREFIX_BYTES && |t.kids| <= MOST_CHILDREN && forall b :: b in t.kids ==> Roomy(t.kids[b])
  }

  /** The guard of an insert: where it splits a leaf the two keys share at most 64 bytes more, and where it adds
      a child the node has fewer than 255. */
  ghost predicate InsFits(t: Trie, k: Key, d: nat) {
    match t
    case Leaf(lk, _) => lk == k || d > |k| || d > |lk| || Common(lk, d, k, d) <= PREFIX_BYTES
    case Inner(prefix, kids) =>
      if d > |k| || Agree(prefix, k, d) != |prefix| then true
      else
        var b := EdgeByte(k, d + |prefix|);
        if b in kids then InsFits(kids[b], k, d + |prefix| + 1) else |kids| < MOST_CHILDREN
  }

  /** The part of that guard which decides whether readers see the new prefixes right: the count of a node's
      children plays no part in a search. */
  ghost predicate InsReads(t: Trie, k: Key, d: nat) {
    match t
    case Leaf(lk, _) => lk == k || d > |k| || d > |lk| || Common(lk, d, k, d) <= PREFIX_BYTES
    case Inner(prefix, kids) =>
      if d > |k| || Agree(prefix, k, d) != |prefix| then true
      else
        var b := EdgeByte(k, d + |prefix|);
        b in kids ==> InsReads(kids[b], k, d + |prefix| + 1)
  }

  lemma {:induction false} InsFitsReads(t: Trie, k: Key, d: nat)
    requires InsFits(t, k, d)
    ensures InsReads(t, k, d)
  {
    hide Agree, EdgeByte, Common;
    if t.Inner? && d <= |k| && Agree(t.prefix, k, d) == |t.prefix| {
      var b := EdgeByte(k, d + |t.prefix|);
      if b in t.kids { InsFitsReads(t.kids[b], k, d + |t.prefix| + 1); }
    }
  }

  /** An insert keeps a tree within the limits exactly when it fits. */
  lemma {:induction false} InsRoomy(t: Trie, k: Key, v: Val, pre: Key)
    requires WF(t, pre) && ZeroFree(k) && Through(pre, k) && Roomy(t)
    ensures Roomy(Ins(t, k, v, pre)) <==> InsFits(t, k, |pre|)
    decreases t, 1
  {
    hide ZeroFree, Through, EdgeByte, Common, Agree, SplitLeaf, SplitPrefix, Has;
    match t
    case Leaf(lk, _) =>
      if lk != k {
        LeafDepth(t, k, pre);
        SplitLeafRoomy(t, k, v, pre);
      }
    case Inner(prefix, kids) =>
      PrefixTest(prefix, pre, k);
      if Agree(prefix, k, |pre|) != |prefix| {
        SplitPrefixRoomy(t, k, v, pre);
      } else {
        InsRoomyBelow(t, k, v, pre);
      }
  }

  lemma {:induction false} InsRoomyBelow(t: Trie, k: Key, v: Val, pre: Key)
    requires t.Inner? && WF(t, pre) && ZeroFree(k) && Through(pre, k) && Roomy(t)
    requires |pre| <= |k| && Agree(t.prefix, k, |pre|) == |t.prefix|
    ensures Roomy(Ins(t, k, v, pre)) <==> InsFits(t, k, |pre|)
    decreases t, 0
  {
    hide ZeroFree, Through, EdgeByte, Common, Agree, Roomy, Has;
    var b := EdgeByte(k, |pre| + |t.prefix|);
    PrefixTest(t.prefix, pre, k);
    PathExtends(pre + t.prefix, k, b);
    if b in t.kids {
      KidRoomy(t, b);
      InsRoomy(t.kids[b], k, v, ChildPath(pre, t.prefix, b));
    }
    KidRoomy(Leaf(k, v), 0);
    PutRoomy(t, b, Ins(t, k, v, pre).kids[b]);
  }

  lemma KidRoomy(t: Trie, b: Byte)
    requires Roomy(t) || t.Leaf?
    ensures Roomy(t) && (t.Inner? && b in t.kids ==> Roomy(t.kids[b]))
  {
  }

  lemma TwoRoomy(prefix: Key, b1: Byte, t1: Trie, b2: Byte, t2: Trie)
    requires Roomy(t1) && Roomy(t2) && b1 != b2
    ensures Roomy(Inner(prefix, map[b1 := t1, b2 := t2])) <==> |prefix| <= PREFIX_BYTES
  {
    var kids := map[b1 := t1, b2 := t2];
    assert kids.Keys == {b1, b2};
    assert |kids| == |kids.Keys| == 2;
  }

  lemma SplitLeafRoomy(t: Trie, k: Key, v: Val, pre: Key)
    requires t.Leaf? && WF(t, pre) && ZeroFree(k) && Through(pre, k) && t.key != k && |pre| <= |k| && |pre| <= |t.key|
    ensures Roomy(SplitLeaf(t, k, v, |pre|)) <==> Common(t.key, |pre|, k, |pre|) <= PREFIX_BYTES
  {
    hide EdgeByte, Common, Roomy, WF, ZeroFree, Through;
    LeavesPart(t, k, pre);
    KidRoomy(t, 0);
    KidRoomy(Leaf(k, v), 0);
    var p := Common(t.key, |pre|, k, |pre|);
    TwoRoomy(k[|pre|..|pre| + p], EdgeByte(t.key, |pre| + p), t, EdgeByte(k, |pre| + p), Leaf(k, v));
  }

  lemma LeavesPart(t: Trie, k: Key, pre: Key)
    requires t.Leaf? && WF(t, pre) && ZeroFree(k) && Through(pre, k) && t.key != k && |pre| <= |k| && |pre| <= |t.key|
    ensures var e := |pre| + Common(t.key, |pre|, k, |pre|); EdgeByte(t.key, e) != EdgeByte(k, e)
  {
    hide ZeroFree, Through, EdgeByte, Common, WF, ChildPath;
    LeafDepth(t, k, pre);
    LeafIs(t, pre);
    SplitPath(t.key, k, pre);
  }

  lemma SplitPrefixRoomy(t: Trie, k: Key, v: Val, pre: Key)
    requires t.Inner? && WF(t, pre) && Roomy(t) && ZeroFree(k) && Through(pre, k) && |pre| <= |k| && Agree(t.prefix, k, |pre|) < |t.prefix|
    ensures Roomy(SplitPrefix(t, k, v, |pre|, Agree(t.prefix, k, |pre|)))
  {
    hide ZeroFree, Through, EdgeByte, Agree, WF;
    InnerPath(t, pre);
    LeavesPrefix(t.prefix, k, pre);
    var p := Agree(t.prefix, k, |pre|);
    TwoRoomy(t.prefix[..p], t.prefix[p], Inner(t.prefix[p + 1..], t.kids), EdgeByte(k, |pre| + p), Leaf(k, v));
  }

  /** One child set or replaced. */
  lemma PutRoomy(t: Trie, b: Byte, s: Trie)
    requires t.Inner? && Roomy(t)
    ensures Roomy(Inner(t.prefix, t.kids[b := s])) <==> Roomy(s) && (b in t.kids || |t.kids| < MOST_CHILDREN)
  {
    var kids := t.kids[b := s];
    assert kids.Keys == t.kids.Keys + {b};
    assert |kids| == |kids.Keys| && |t.kids| == |t.kids.Keys|;
    if b in t.kids { assert kids.Keys == t.kids.Keys; } else { assert |t.kids.Keys + {b}| == |t.kids.Keys| + 1; }
    assert kids[b] == s;
    if Roomy(s) {
      forall c | c in kids ensures Roomy(kids[c]) { if c != b { assert kids[c] == t.kids[c]; } }
    }
  }

  /** A delete whose collapse fits keeps a tree within the limits. */
  lemma {:induction false} DelRoomy(t: Trie, k: Key, d: nat, body: Key)
    requires t.Inner? && Roomy(t) && DelFits(t, k, d)
    ensures Roomy(DelInner(t, k, d, body))
    decreases t
  {
    hide EdgeByte, Agree, Without, Fits;
    var e := d + |t.prefix|;
    if d <= |k| && Agree(t.prefix, k, d) == |t.prefix| && EdgeByte(k, e) in t.kids {
      var b := EdgeByte(k, e);
      if t.kids[b].Inner? {
        DelRoomy(t.kids[b], k, e + 1, body);
        PutRoomy(t, b, DelInner(t.kids[b], k, e + 1, body));
      } else if t.kids[b].key == k {
        WithoutRoomy(t, b, body);
      }
    }
  }

  lemma WithoutRoomy(t: Trie, b: Byte, body: Key)
    requires t.Inner? && Roomy(t) && b in t.kids && Fits(t, b)
    ensures Roomy(Without(t, b, body))
  {
    hide Merged;
    if |t.kids| == 2 {
      var o := t.kids[Sibling(t.kids, b)];
      if o.Inner? { MergedFits(t.prefix, Sibling(t.kids, b), o.prefix, body); }
    } else {
      var rest := t.kids - {b};
      assert rest.Keys == t.kids.Keys - {b};
      assert |rest| == |rest.Keys| && |t.kids| == |t.kids.Keys|;
    }
  }

  /** A delete leaves every other key's answer unchanged if and only if the prefix that its collapse leaves,
      if it makes one, reads right, whatever bytes lie behind the header of the copied node. */
  lemma DeleteExact(t: Trie, k: Key, body: Key)
    requires t.Inner? && WF(t, []) && Roomy(t) && ZeroFree(k)
    ensures (forall k2 :: ZeroFree(k2) && k2 != k ==> Lookup(DelInner(t, k, 0, body), k2, 0) == Lookup(t, k2, 0))
            <==> DelReads(t, k, 0, body)
  {
    hide ZeroFree, Agree, EdgeByte, WF, DelReads, Has;
    var u := DelInner(t, k, 0, body);
    if DelReads(t, k, 0, body) {
      DelCorrect(t, k, [], body);
      forall k2 | ZeroFree(k2) && k2 != k ensures Lookup(u, k2, 0) == Lookup(t, k2, 0) {
        SameAnswer(t, u, k2);
      }
    } else {
      var k2, v2 := DelLoses(t, k, [], body);
      HasPath(t, [], k2, v2);
      LookupIsHas(t, [], k2, v2);
    }
  }

  /** No prefix fills its header. */
  ghost predicate Spare(t: Trie) {
    t.Inner? ==> |t.prefix| < PREFIX_BYTES && forall b :: b in t.kids ==> Spare(t.kids[b])
  }

  /** In a tree with such prefixes only, the guard of ten bytes is the exact condition. */
  lemma DeleteExactShort(t: Trie, k: Key, body: Key)
    requires t.Inner? && WF(t, []) && Roomy(t) && Spare(t) && ZeroFree(k)
    ensures (forall k2 :: ZeroFree(k2) && k2 != k ==> Lookup(DelInner(t, k, 0, body), k2, 0) == Lookup(t, k2, 0))
            <==> DelFits(t, k, 0)
  {
    hide ZeroFree, Agree, EdgeByte, WF, DelReads, DelFits, Lookup, DelInner, Spare, Roomy;
    DeleteExact(t, k, body);
    if DelFits(t, k, 0) { DelFitsReads(t, k, 0, body); }
    if DelReads(t, k, 0, body) { DelReadsFits(t, k, [], body); }
  }

  lemma {:induction false} DelReadsFits(t: Trie, k: Key, pre: Key, body: Key)
    requires WF(t, pre) && Spare(t) && DelReads(t, k, |pre|, body)
    ensures DelFits(t, k, |pre|)
    decreases t
  {
    hide ZeroFree, Through, Agree, EdgeByte, Fits, Reads;
    if t.Inner? {
      var b := EdgeByte(k, |pre| + |t.prefix|);
      if |pre| <= |k| && Agree(t.prefix, k, |pre|) == |t.prefix| && b in t.kids {
        if t.kids[b].Inner? { DelReadsFits(t.kids[b], k, ChildPath(pre, t.prefix, b), body); }
        else if t.kids[b].key == k { ReadsFits(t, b, pre, body); }
      }
    }
  }

  lemma ReadsFits(t: Trie, b: Byte, pre: Key, body: Key)
    requires t.Inner? && WF(t, pre) && Spare(t) && b in t.kids && Reads(t, b, body)
    ensures Fits(t, b)
  {
    hide ZeroFree, Through, Merged;
    if |t.kids| == 2 {
      var c := Sibling(t.kids, b);
      var o := t.kids[c];
      if o.Inner? && |t.prefix| + 1 + |o.prefix| > COLLAPSE_BYTES {
        ZeroFreePart(pre, t.prefix, c, o.prefix);
        MergedLong(t.prefix, c, o.prefix, body);
      }
    }
  }

  lemma ZeroFreePart(pre: Key, p1: Key, c: Byte, p2: Key)
    requires ZeroFree(ChildPath(pre, p1, c) + p2)
    ensures ZeroFree(p1 + [c] + p2)
  {
    var way := ChildPath(pre, p1, c) + p2;
    forall i | 0 <= i < |p1 + [c] + p2| ensures (p1 + [c] + p2)[i] != 0 {
      assert way[|pre| + i] == (p1 + [c] + p2)[i];
    }
  }

  lemma SameAnswer(t: Trie, u: Trie, k: Key)
    requires WF(t, []) && WF(u, []) && ZeroFree(k)
    requires forall v :: Has(t, k, v) <==> Has(u, k, v)
    ensures Lookup(u, k, 0) == Lookup(t, k, 0)
  {
    hide WF, Has, ZeroFree;
    if Lookup(u, k, 0).Some? {
      LookupIsHas(u, [], k, Lookup(u, k, 0).value);
      LookupIsHas(t, [], k, Lookup(u, k, 0).value);
    }
    if Lookup(t, k, 0).Some? {
      LookupIsHas(t, [], k, Lookup(t, k, 0).value);
      LookupIsHas(u, [], k, Lookup(t, k, 0).value);
    }
  }
}
