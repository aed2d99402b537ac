/** Delete on the radix tree: removing a leaf, shrinking its parent, and collapsing a parent
    left with one child. The collapse branch writes the parent's prefix and the first ten bytes
    of what follows it; delete is right exactly when the merged prefix then reads right. */
module ArtTrieDelete {
  import opened Options
  import opened Bytes
  import opened ArtTrie

  /** Number of merged prefix bytes the collapse branch writes. */
  const COLLAPSE_BYTES := 10

  /** How many prefix bytes lie in a node's header, in front of its keys. */
  const PREFIX_BYTES := 64

  /** What a copy of a child holds at place `i` of its prefix: the child's own prefix byte or zero, and behind
      the header the bytes `body` of the node itself. */
  function Left(p2: Key, body: Key, i: nat): Byte {
    if i < PREFIX_BYTES then (if i < |p2| then p2[i] else 0)
    else if i - PREFIX_BYTES < |body| then body[i - PREFIX_BYTES] else 0
  }

  /** The prefix bytes that a reader finds in the merged node: the copy's, overwritten by the parent's prefix,
      then by the edge byte and the child's prefix as far as byte ten. */
  function Merged(p1: Key, kb: Byte, p2: Key, body: Key): Key {
    seq(|p1| + 1 + |p2|, i requires 0 <= i < |p1| + 1 + |p2| =>
      if i < |p1| then p1[i]
      else if i < COLLAPSE_BYTES then (if i == |p1| then kb else p2[i - |p1| - 1])
      else Left(p2, body, i))
  }

  lemma MergedFits(p1: Key, kb: Byte, p2: Key, body: Key)
    requires |p1| + 1 + |p2| <= 10
    ensures Merged(p1, kb, p2, body) == p1 + [kb] + p2
  {
  }

  /** A merged prefix of more than ten bytes reads right only if one of its two parts fills a header. */
  lemma MergedLong(p1: Key, kb: Byte, p2: Key, body: Key)
    requires 10 < |p1| + 1 + |p2| && |p1| < 64 && |p2| < 64 && ZeroFree(p1 + [kb] + p2)
    ensures Merged(p1, kb, p2, body) != p1 + [kb] + p2
  {
    var i := if |p1| + |p2| < PREFIX_BYTES then |p1| + |p2| else PREFIX_BYTES - 1;
    assert Merged(p1, kb, p2, body)[i] == 0 != (p1 + [kb] + p2)[i];
  }

  // ---------- Removing one leaf child ----------

  /** The other child of a two-way node. */
  ghost function Sibling(kids: map<Byte, Trie>, b: Byte): (c: Byte)
    requires |kids| == 2 && b in kids
    ensures c in kids && c != b && kids.Keys == {b, c}
  {
    TwoKeys(kids, b);
    var c :| c in kids && c != b && kids.Keys == {b, c};
    c
  }

  lemma TwoKeys(kids: map<Byte, Trie>, b: Byte)
    requires |kids| == 2 && b in kids
    ensures exists c :: c in kids && c != b && kids.Keys == {b, c}
  {
    var rest := kids.Keys - {b};
    assert |kids.Keys| == |kids| && |rest| == 1;
    var c :| c in rest;
    assert |rest - {c}| == 0;
    assert kids.Keys == {b, c};
  }

  /** A node with its leaf child at `b` removed: smaller, or collapsed into the child that is left, in a copy
      that holds the bytes `body` behind its header. */
  ghost function Without(t: Trie, b: Byte, body: Key): Trie
    requires t.Inner? && b in t.kids
  {
    if |t.kids| == 2 then
      var c := Sibling(t.kids, b);
      var o := t.kids[c];
      if o.Leaf? then o else Inner(Merged(t.prefix, c, o.prefix, body), o.kids)
    else Inner(t.prefix, t.kids - {b})
  }

  /** The guard a caller can check: no collapse, or a collapse whose merged prefix has at most ten bytes. */
  ghost predicate Fits(t: Trie, b: Byte)
    requires t.Inner? && b in t.kids
  {
    |t.kids| == 2 ==>
      var o := t.kids[Sibling(t.kids, b)];
      o.Leaf? || |t.prefix| + 1 + |o.prefix| <= COLLAPSE_BYTES
  }

  /** The exact condition, to be checked on the bytes before the collapse: every byte that it does not write
      happens to be there already. */
  ghost predicate Reads(t: Trie, b: Byte, body: Key)
    requires t.Inner? && b in t.kids
  {
    |t.kids| == 2 ==>
      var c := Sibling(t.kids, b);
      var o := t.kids[c];
      o.Leaf? || Merged(t.prefix, c, o.prefix, body) == t.prefix + [c] + o.prefix
  }

  lemma FitsReads(t: Trie, b: Byte, body: Key)
    requires t.Inner? && b in t.kids && Fits(t, b)
    ensures Reads(t, b, body)
  {
    hide Merged;
    if |t.kids| == 2 {
      var o := t.kids[Sibling(t.kids, b)];
      if o.Inner? { MergedFits(t.prefix, Sibling(t.kids, b), o.prefix, body); }
    }
  }

  /** The keys below the child at `b` are not found below any other child. */
  lemma OtherKids(t: Trie, pre: Key, b: Byte, c: Byte, k: Key, v: Val, w: Val)
    requires t.Inner? && WF(t, pre) && b in t.kids && c in t.kids && b != c
    requires Has(t.kids[b], k, v)
    ensures !Has(t.kids[c], k, w)
  {
    hide EdgeByte, Through, ZeroFree, WF, Has;
    HasEdge(t, pre, k, v, b);
    if Has(t.kids[c], k, w) {
      HasEdge(t, pre, k, w, c);
    }
  }

  lemma WithoutHas(t: Trie, b: Byte, pre: Key, u: Trie, k: Key, v: Val)
    requires t.Inner? && WF(t, pre) && b in t.kids && t.kids[b].Leaf?
    requires Has(u, k, v) <==> exists c :: c in t.kids && c != b && Has(t.kids[c], k, v)
    ensures Has(u, k, v) <==> Has(t, k, v) && k != t.kids[b].key
  {
    hide WF;
    var l := t.kids[b];
    assert Has(l, l.key, l.val);
    if k == l.key {
      forall c | c in t.kids && c != b ensures !Has(t.kids[c], k, v) {
        OtherKids(t, pre, b, c, l.key, l.val, v);
      }
    }
  }

  lemma WithoutKeepsOrder(t: Trie, b: Byte, pre: Key)
    requires t.Inner? && WF(t, pre) && b in t.kids && |t.kids| != 2
    ensures WF(Inner(t.prefix, t.kids - {b}), pre)
  {
    hide ZeroFree, ChildPath;
    var rest := t.kids - {b};
    assert rest.Keys == t.kids.Keys - {b};
    assert |rest.Keys| == |rest| && |t.kids.Keys| == |t.kids|;
  }

  lemma MergedPath(pre: Key, p1: Key, c: Byte, p2: Key, body: Key)
    requires Merged(p1, c, p2, body) == p1 + [c] + p2
    ensures ChildPath(pre, p1, c) + p2 == pre + Merged(p1, c, p2, body)
  {
    hide Merged;
    assert pre + p1 + [c] + p2 == pre + (p1 + [c] + p2);
  }

  lemma LeafUp(o: Trie, pre: Key, prefix: Key, c: Byte)
    requires o.Leaf? && WF(o, ChildPath(pre, prefix, c))
    ensures WF(o, pre)
  {
    assert pre + prefix + [c] == pre + (prefix + [c]);
    PathShorter(pre, prefix + [c], o.key);
  }

  lemma WithoutCollapsed(t: Trie, b: Byte, pre: Key, body: Key)
    requires t.Inner? && WF(t, pre) && b in t.kids && |t.kids| == 2 && Reads(t, b, body)
    ensures WF(Without(t, b, body), pre)
    ensures forall k, v :: Has(Without(t, b, body), k, v) <==> Has(t.kids[Sibling(t.kids, b)], k, v)
  {
    hide ZeroFree, ChildPath, Through, Merged;
    var c := Sibling(t.kids, b);
    var o := t.kids[c];
    if o.Leaf? {
      LeafUp(o, pre, t.prefix, c);
    } else {
      MergedPath(pre, t.prefix, c, o.prefix, body);
      SameChildren(o, Without(t, b, body), ChildPath(pre, t.prefix, c), pre);
    }
  }

  /** Removing a leaf child keeps the node well formed and removes that leaf's key only. */
  lemma WithoutCorrect(t: Trie, b: Byte, pre: Key, body: Key)
    requires t.Inner? && WF(t, pre) && b in t.kids && t.kids[b].Leaf? && Reads(t, b, body)
    ensures WF(Without(t, b, body), pre)
    ensures forall k, v :: Has(Without(t, b, body), k, v) <==> Has(t, k, v) && k != t.kids[b].key
  {
    hide ZeroFree, ChildPath, Through, Merged, WF;
    var u := Without(t, b, body);
    if |t.kids| == 2 {
      WithoutCollapsed(t, b, pre, body);
      var c := Sibling(t.kids, b);
      forall k, v ensures Has(u, k, v) <==> Has(t, k, v) && k != t.kids[b].key {
        if e :| e in t.kids && e != b && Has(t.kids[e], k, v) { assert e in t.kids.Keys; }
        WithoutHas(t, b, pre, u, k, v);
      }
    } else {
      WithoutKeepsOrder(t, b, pre);
      forall k, v ensures Has(u, k, v) <==> Has(t, k, v) && k != t.kids[b].key {
        if e :| e in t.kids && e != b && Has(t.kids[e], k, v) { assert e in u.kids && u.kids[e] == t.kids[e]; }
        WithoutHas(t, b, pre, u, k, v);
      }
    }
  }

  // ---------- Delete ----------

  /** Delete below an inner node that a descent has reached after `d` bytes. */
  ghost function DelInner(t: Trie, k: Key, d: nat, body: Key): Trie
    requires t.Inner?
  {
    var e := d + |t.prefix|;
    if d > |k| || Agree(t.prefix, k, d) != |t.prefix| || EdgeByte(k, e) !in t.kids then t
    else
      var b := EdgeByte(k, e);
      var c := t.kids[b];
      if c.Inner? then Inner(t.prefix, t.kids[b := DelInner(c, k, e + 1, body)])
      else if c.key == k then Without(t, b, body) else t
  }

  /** The whole operation: a root leaf leaves the empty tree behind. */
  ghost function Del(t: Trie, k: Key, body: Key): Option<Trie> {
    if t.Inner? then Some(DelInner(t, k, 0, body)) else if t.key == k then None else Some(t)
  }

  /** Whether the one collapse this delete would make, if any, fits the ten bytes. */
  ghost predicate DelFits(t: Trie, k: Key, d: nat)
  {
    t.Inner? ==>
      var e := d + |t.prefix|;
      d <= |k| && Agree(t.prefix, k, d) == |t.prefix| && EdgeByte(k, e) in t.kids ==>
        var c := t.kids[EdgeByte(k, e)];
        if c.Inner? then DelFits(c, k, e + 1) else c.key == k ==> Fits(t, EdgeByte(k, e))
  }

  /** Whether the merged prefix of the one collapse this delete would make, if any, reads right. */
  ghost predicate DelReads(t: Trie, k: Key, d: nat, body: Key)
  {
    t.Inner? ==>
      var e := d + |t.prefix|;
      d <= |k| && Agree(t.prefix, k, d) == |t.prefix| && EdgeByte(k, e) in t.kids ==>
        var c := t.kids[EdgeByte(k, e)];
        if c.Inner? then DelReads(c, k, e + 1, body) else c.key == k ==> Reads(t, EdgeByte(k, e), body)
  }

  lemma {:induction false} DelFitsReads(t: Trie, k: Key, d: nat, body: Key)
    requires DelFits(t, k, d)
    ensures DelReads(t, k, d, body)
  {
    hide Agree, EdgeByte, Fits, Reads;
    if t.Inner? {
      var e := d + |t.prefix|;
      var b := EdgeByte(k, e);
      if d <= |k| && Agree(t.prefix, k, d) == |t.prefix| && b in t.kids {
        if t.kids[b].Inner? { DelFitsReads(t.kids[b], k, e + 1, body); }
        else if t.kids[b].key == k { FitsReads(t, b, body); }
      }
    }
  }

  /** A key the descent misses is not stored. */
  lemma MissedKey(t: Trie, pre: Key, k: Key, v: Val)
    requires WF(t, pre) && ZeroFree(k) && Through(pre, k) && Lookup(t, k, |pre|) == None
    ensures !Has(t, k, v)
  {
    LookupIsHas(t, pre, k, v);
  }

  /** Delete removes the key and nothing else, whenever the prefix its collapse leaves reads right. */
  lemma {:induction false} DelCorrect(t: Trie, k: Key, pre: Key, body: Key)
    requires t.Inner? && WF(t, pre) && ZeroFree(k) && Through(pre, k) && DelReads(t, k, |pre|, body)
    ensures WF(DelInner(t, k, |pre|, body), pre)
    ensures forall k2, v2 :: Has(DelInner(t, k, |pre|, body), k2, v2) <==> Has(t, k2, v2) && k2 != k
    decreases t, 1
  {
    hide ZeroFree, ChildPath, Through, Merged, Agree, EdgeByte, Reads, Without;
    var e := |pre| + |t.prefix|;
    var b := EdgeByte(k, e);
    PrefixTest(t.prefix, pre, k);
    if Agree(t.prefix, k, |pre|) != |t.prefix| || b !in t.kids || (t.kids[b].Leaf? && t.kids[b].key != k) {
      forall v2 ensures !Has(t, k, v2) { MissedKey(t, pre, k, v2); }
    } else if t.kids[b].Leaf? {
      WithoutCorrect(t, b, pre, body);
    } else {
      DelBelow(t, k, pre, body);
    }
  }

  lemma {:induction false} DelBelow(t: Trie, k: Key, pre: Key, body: Key)
    requires t.Inner? && WF(t, pre) && ZeroFree(k) && Through(pre, k) && DelReads(t, k, |pre|, body)
    requires |pre| <= |k| && Agree(t.prefix, k, |pre|) == |t.prefix|
    requires var b := EdgeByte(k, |pre| + |t.prefix|); b in t.kids && t.kids[b].Inner?
    ensures WF(DelInner(t, k, |pre|, body), pre)
    ensures forall k2, v2 :: Has(DelInner(t, k, |pre|, body), k2, v2) <==> Has(t, k2, v2) && k2 != k
    decreases t, 0
  {
    hide ZeroFree, Through, Merged, Agree, EdgeByte, Reads, Without;
    var b := EdgeByte(k, |pre| + |t.prefix|);
    var s := DelInner(t, k, |pre|, body);
    PrefixTest(t.prefix, pre, k);
    PathExtends(pre + t.prefix, k, b);
    DelCorrect(t.kids[b], k, ChildPath(pre, t.prefix, b), body);
    assert s.kids.Keys == t.kids.Keys;
    assert |s.kids| == |s.kids.Keys| && |t.kids| == |t.kids.Keys|;
    forall k2, v2 ensures Has(s, k2, v2) <==> Has(t, k2, v2) && k2 != k {
      DelKids(t, s, b, k, pre, k2, v2);
    }
  }

  lemma DelKids(t: Trie, s: Trie, b: Byte, k: Key, pre: Key, k2: Key, v2: Val)
    requires t.Inner? && WF(t, pre) && b in t.kids && b == EdgeByte(k, |pre| + |t.prefix|)
    requires s.Inner? && b in s.kids && s.kids == t.kids[b := s.kids[b]]
    requires Has(s.kids[b], k2, v2) <==> Has(t.kids[b], k2, v2) && k2 != k
    ensures Has(s, k2, v2) <==> Has(t, k2, v2) && k2 != k
  {
    hide ZeroFree, Through, EdgeByte;
    forall c | c in t.kids && c != b && Has(t.kids[c], k2, v2) ensures k2 != k {
      HasEdge(t, pre, k2, v2, c);
    }
    if k2 != k && Has(t, k2, v2) {
      var c :| c in t.kids && Has(t.kids[c], k2, v2);
      assert c in s.kids && Has(s.kids[c], k2, v2);
    }
  }

  // ---------- What a collapse that does not read right loses ----------

  lemma {:induction false} SomeKey(t: Trie, pre: Key) returns (k: Key, v: Val)
    requires WF(t, pre)
    ensures Has(t, k, v)
  {
    if t.Leaf? {
      k, v := t.key, t.val;
    } else {
      var b :| b in t.kids;
      k, v := SomeKey(t.kids[b], ChildPath(pre, t.prefix, b));
    }
  }

  /** A prefix that is not the way a key runs does not match it, whatever bytes it has. */
  lemma WrongPrefix(wrong: Key, right: Key, pre: Key, k: Key)
    requires ZeroFree(pre + right) && Through(pre + right, k) && |wrong| == |right| && wrong != right
    ensures |pre| <= |k| && Agree(wrong, k, |pre|) != |wrong|
  {
    hide Common, ZeroFree, Through;
    PathInside(pre + right, k);
    CommonIs(wrong, 0, k, |pre|);
    var r := Agree(wrong, k, |pre|);
    assert wrong[0..|wrong|] == wrong && k[|pre|..|pre| + |right|] == right;
  }

  /** A collapse whose merged prefix reads wrong hides every key of the sibling. */
  lemma WithoutLoses(t: Trie, b: Byte, pre: Key, body: Key, k: Key, v: Val)
    requires t.Inner? && WF(t, pre) && b in t.kids && !Reads(t, b, body) && Has(t.kids[Sibling(t.kids, b)], k, v)
    ensures Lookup(Without(t, b, body), k, |pre|) == None
  {
    hide Through, ChildPath, Agree, ZeroFree, EdgeByte, Merged, Has;
    var c := Sibling(t.kids, b);
    var o := t.kids[c];
    var right := t.prefix + [c] + o.prefix;
    SiblingPath(t, pre, c, k, v);
    WrongPrefix(Merged(t.prefix, c, o.prefix, body), right, pre, k) by { MergedLength(t.prefix, c, o.prefix, body); }
  }

  lemma MergedLength(p1: Key, kb: Byte, p2: Key, body: Key)
    ensures |Merged(p1, kb, p2, body)| == |p1 + [kb] + p2|
  {
  }

  /** The way to the keys of an inner child. */
  lemma SiblingPath(t: Trie, pre: Key, c: Byte, k: Key, v: Val)
    requires t.Inner? && WF(t, pre) && c in t.kids && t.kids[c].Inner? && Has(t.kids[c], k, v)
    ensures var way := pre + (t.prefix + [c] + t.kids[c].prefix); ZeroFree(way) && Through(way, k)
  {
    hide Through, ZeroFree, EdgeByte;
    var o := t.kids[c];
    var e :| e in o.kids && Has(o.kids[e], k, v);
    HasEdge(o, ChildPath(pre, t.prefix, c), k, v, e);
    assert pre + (t.prefix + [c] + o.prefix) == ChildPath(pre, t.prefix, c) + o.prefix;
  }

  lemma {:induction false} DelLoses(t: Trie, k: Key, pre: Key, body: Key) returns (k2: Key, v2: Val)
    requires t.Inner? && WF(t, pre) && ZeroFree(k) && Through(pre, k) && !DelReads(t, k, |pre|, body)
    ensures k2 != k && Has(t, k2, v2)
    ensures Lookup(DelInner(t, k, |pre|, body), k2, |pre|) == None
  {
    hide ZeroFree, Through, Merged, Agree, EdgeByte, Without, Reads;
    var b := EdgeByte(k, |pre| + |t.prefix|);
    PrefixTest(t.prefix, pre, k);
    PathExtends(pre + t.prefix, k, b);
    if t.kids[b].Inner? {
      k2, v2 := DelLoses(t.kids[b], k, ChildPath(pre, t.prefix, b), body);
      LostBelow(t, k, pre, body, k2, v2);
    } else {
      k2, v2 := WithoutLosesSome(t, b, pre, body);
    }
  }

  lemma WithoutLosesSome(t: Trie, b: Byte, pre: Key, body: Key) returns (k2: Key, v2: Val)
    requires t.Inner? && WF(t, pre) && b in t.kids && t.kids[b].Leaf? && !Reads(t, b, body)
    ensures k2 != t.kids[b].key && Has(t, k2, v2)
    ensures Lookup(Without(t, b, body), k2, |pre|) == None
  {
    hide ZeroFree, Through, ChildPath, Lookup, Merged;
    var c := Sibling(t.kids, b);
    k2, v2 := SomeKey(t.kids[c], ChildPath(pre, t.prefix, c));
    SiblingKey(t, pre, b, c, k2, v2);
    WithoutLoses(t, b, pre, body, k2, v2);
  }

  lemma SiblingKey(t: Trie, pre: Key, b: Byte, c: Byte, k2: Key, v2: Val)
    requires t.Inner? && WF(t, pre) && b in t.kids && t.kids[b].Leaf? && c in t.kids && c != b && Has(t.kids[c], k2, v2)
    ensures k2 != t.kids[b].key && ZeroFree(k2) && Has(t, k2, v2)
  {
    hide ZeroFree, Through, EdgeByte;
    HasEdge(t, pre, k2, v2, c);
    assert Has(t.kids[b], t.kids[b].key, t.kids[b].val);
    HasEdge(t, pre, t.kids[b].key, t.kids[b].val, b);
  }

  lemma LostBelow(t: Trie, k: Key, pre: Key, body: Key, k2: Key, v2: Val)
    requires t.Inner? && WF(t, pre) && |pre| <= |k| && Agree(t.prefix, k, |pre|) == |t.prefix|
    requires var b := EdgeByte(k, |pre| + |t.prefix|);
             && b in t.kids && t.kids[b].Inner? && Has(t.kids[b], k2, v2)
             && Lookup(DelInner(t.kids[b], k, |pre| + |t.prefix| + 1, body), k2, |pre| + |t.prefix| + 1) == None
    ensures Lookup(DelInner(t, k, |pre|, body), k2, |pre|) == None
  {
    hide Through, ZeroFree, Agree, EdgeByte;
    HasEdge(t, pre, k2, v2, EdgeByte(k, |pre| + |t.prefix|));
  }
}
