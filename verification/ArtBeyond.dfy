/** What happens beyond the limits: keys with zero bytes, nodes with all 256 children, prefixes that do not
    fit the header. Each is shown to fail, and where the code decides it, exactly when. */
module ArtBeyond {
  import opened Options
  import opened Bytes
  import opened ArtTrie
  import opened ArtTrieDelete
  import opened ArtLimits
  import opened ArtTrieTheory
  import opened ArtNode

  // ---------- Zero bytes ----------

  /** A search that has come to a Node4 with leaves below it: the prefix, the first matching entry, the leaf's key. */
  ghost function SearchLeaves(n: Node, leaves: map<Ptr, (Key, Val)>, key: Key, d: nat): Option<Val>
    requires n.Node4? && n.num <= |n.keys| == |n.slots|
  {
    if d > |key| || Agree(n.prefix, key, d) != |n.prefix| then None
    else
      var p := SmallFind(n.num, n.keys, n.slots, EdgeByte(key, d + |n.prefix|));
      if p in leaves && leaves[p].0 == key then Some(leaves[p].1) else None
  }

  /** The node that an insert of `k` puts in place of the leaf of `a`, and its two leaves. */
  ghost function Split(a: Key, k: Key, d: nat): Node
    requires d <= |a| && d <= |k|
  {
    var p := Common(a, d, k, d);
    Leaf4(k[d..d + p], EdgeByte(a, d + p), 1, EdgeByte(k, d + p), 2)
  }

  /** After a leaf is split for a new key, whatever bytes the two keys have, search finds the old key; and it finds the
      new one exactly when neither key is the other followed by a zero byte and possibly more. */
  lemma SplitFinds(a: Key, x: Val, k: Key, v: Val, d: nat)
    requires a != k && d <= |a| && d <= |k| && a[..d] == k[..d]
    ensures var leaves: map<Ptr, (Key, Val)> := map[1 := (a, x), 2 := (k, v)];
            && SearchLeaves(Split(a, k, d), leaves, a, d) == Some(x)
            && SearchLeaves(Split(a, k, d), leaves, k, d) == if Term(a) <= k || Term(k) <= a then None else Some(v)
  {
    hide Common, SmallFind, EdgeByte;
    CommonIs(a, d, k, d);
    var n := Split(a, k, d);
    var m := d + Common(a, d, k, d);
    AgreesWith(n.prefix, a, d);
    AgreesWith(n.prefix, k, d);
    FirstOf(EdgeByte(a, m), EdgeByte(k, m));
    assert a[0..m] == a[..d] + a[d..m] && k[0..m] == k[..d] + k[d..m];
    SameEdgeWhen(a, k, m);
  }

  lemma SameEdgeWhen(a: Key, k: Key, m: nat)
    requires a != k && m <= |a| && m <= |k| && a[0..m] == k[0..m] && (m < |a| && m < |k| ==> a[m] != k[m])
    ensures EdgeByte(a, m) == EdgeByte(k, m) <==> Term(a) <= k || Term(k) <= a
  {
    TermPrefix(a, k, m);
    TermPrefix(k, a, m);
  }

  lemma AgreesWith(p: Key, k: Key, d: nat)
    requires d + |p| <= |k| && p == k[d..d + |p|]
    ensures Agree(p, k, d) == |p|
  {
    hide Common;
    CommonIs(p, 0, k, d);
    var r := Common(p, 0, k, d);
  }

  lemma FirstOf(b1: Byte, b2: Byte)
    ensures SmallFind(2, [b1, b2, 0, 0], [1, 2, 0, 0], b1) == 1
    ensures SmallFind(2, [b1, b2, 0, 0], [1, 2, 0, 0], b2) == if b1 == b2 then 1 else 2
  {
    var keys := [b1, b2, 0, 0];
    assert keys[0] == b1 && keys[1] == b2;
    if b1 != b2 { assert KeyAt(keys, 2, b2, 0) == KeyAt(keys, 2, b2, 1) == 1; }
  }

  /** The key "p" is stored; "p" followed by a zero byte is inserted, and search does not find it. */
  lemma ZeroKeyLost(x: Val, v: Val)
    ensures var a: Key, k: Key := [112], [112, 0]; var leaves: map<Ptr, (Key, Val)> := map[1 := (a, x), 2 := (k, v)];
            SearchLeaves(Split(a, k, 0), leaves, k, 0) == None
  {
    hide Split, SearchLeaves;
    var a: Key, k: Key := [112], [112, 0];
    assert Term(a) <= k;
    SplitFinds(a, x, k, v, 0);
  }

  // ---------- All 256 children ----------

  /** Where the child slots of a Node48 begin, and how many bytes the node has. */
  const NODE48_CHILDREN_OFFSET := 344
  const NODE48_SIZE := 728

  /** The children that the copy has come to before edge `i`. */
  ghost function Passed(n: Node, c: Byte, i: nat): set<Byte>
    requires Shape(n)
  {
    set e: Byte | 0 <= e < 256 && e < i && e != c && Find(n, e) != 0
  }

  /** Where the copy of a Node256 into a Node48 writes the children that are left, whatever the count byte says:
      each slot behind the one before it, so all inside the node if and only if at most 48 are left. */
  method CopyWrites(n: Node, c: Byte) returns (at: seq<nat>)
    requires Shape(n) && n.Node256?
    ensures |at| == |Kids(n) - {c}| && forall j :: 0 <= j < |at| ==> at[j] == NODE48_CHILDREN_OFFSET + 8 * j
    ensures (forall j :: 0 <= j < |at| ==> at[j] + 8 <= NODE48_SIZE) <==> |Kids(n) - {c}| <= 48
  {
    at := [];
    var i, idx := 0, 1;
    while i < 256
      invariant 0 <= i <= 256 && |at| == |Passed(n, c, i)| && idx == |at| + 1
      invariant forall j :: 0 <= j < |at| ==> at[j] == NODE48_CHILDREN_OFFSET + 8 * j
    {
      if n.slots[i] != 0 && i != c {
        assert Passed(n, c, i + 1) == Passed(n, c, i) + {i};
        at := at + [NODE48_CHILDREN_OFFSET + (idx - 1) * 8];
        idx := idx + 1;
      } else {
        assert Passed(n, c, i + 1) == Passed(n, c, i);
      }
      i := i + 1;
    }
    assert (Kids(n) - {c}).Keys == Passed(n, c, 256);
    assert |Kids(n) - {c}| == |(Kids(n) - {c}).Keys|;
    if |at| > 48 { assert at[48] + 8 > NODE48_SIZE; }
  }

  /** The last child of a full Node256: its count byte reads 0. An iterator sees no child of it, and a delete
      takes it for a node of at most 48 children and copies it, though no Node48 can hold the 255 that are left. */
  lemma FullNodeBreaks(n: Node, b: Byte, p: Ptr, c: Byte, small: Node)
    requires Tidy(n) && n.Node256? && |Kids(n)| == COUNTS - 1 && Find(n, b) == 0 && p != 0
    requires Tidy(small) && small.Node48?
    ensures var r := Node256(n.prefix, CountByte(n.num + 1), n.slots[b := p]);
            && r.num == 0 && |Kids(r)| == COUNTS && !Tidy(r) && |Kids(r) - {c}| == COUNTS - 1 && Kids(small) != Kids(r) - {c}
  {
    hide Kids;
    var r := Node256(n.prefix, CountByte(n.num + 1), n.slots[b := p]);
    Direct(n, b, p, r);
    var rest := Kids(r) - {c};
    assert rest.Keys == Kids(r).Keys - {c};
    assert |rest| == |rest.Keys| && |Kids(r)| == |Kids(r).Keys|;
    EveryByte(Kids(r).Keys, c);
  }

  lemma EveryByte(s: set<Byte>, c: Byte)
    requires |s| == 256
    ensures c in s
  {
    BytesCount(256);
    if c !in s {
      SmallerSet(s, BytesBelow(256) - {c});
    }
  }

  /** Zero-free keys can fill a node: `p` alone, and `p` with each of the 255 other bytes behind it. The delete
      of one of them meets no collapse. With one child less the node is within the limits, if its prefix is. */
  lemma FullTree(p: Key, k: Key)
    requires ZeroFree(p) && p != []
    ensures var t := Inner(p, map b: Byte | 0 <= b < 256 :: Leaf(if b == 0 then p else p + [b], []));
            WF(t, []) && |t.kids| == 256 && DelFits(t, k, 0) && !Roomy(t)
            && (Roomy(Inner(p, t.kids - {0})) <==> |p| <= 64)
  {
    hide WF, Has, Through, ZeroFree;
    var kids := map b: Byte | 0 <= b < 256 :: Leaf(if b == 0 then p else p + [b], []);
    var t := Inner(p, kids);
    BytesCount(256);
    assert kids.Keys == BytesBelow(256);
    assert |kids| == |kids.Keys|;
    assert [] + p == p;
    forall b | b in kids ensures WF(kids[b], ChildPath([], p, b)) { FullLeaf(p, b); }
    FullForm(t);
    assert (kids - {0}).Keys == kids.Keys - {0};
    assert |kids - {0}| == |(kids - {0}).Keys|;
  }

  lemma FullLeaf(p: Key, b: Byte)
    requires ZeroFree(p)
    ensures WF(Leaf(if b == 0 then p else p + [b], []), ChildPath([], p, b))
  {
    assert [] + p + [b] == p + [b];
    if b != 0 { assert Term(p + [b])[..|p| + 1] == p + [b]; }
  }

  lemma FullForm(t: Trie)
    requires t.Inner? && ZeroFree([] + t.prefix) && |t.kids| >= 3 && forall b :: b in t.kids ==> t.kids[b].Leaf? && WF(t.kids[b], ChildPath([], t.prefix, b))
    ensures WF(t, []) && forall k :: DelFits(t, k, 0)
  {
  }

  // ---------- Prefixes beyond the header ----------

  /** A collapse to 65 prefix bytes: the last byte is not written, and a reader finds the copied node's first key
      in its place. Nothing is lost if and only if that key is the edge byte. */
  lemma LongCollapse(p: Key, e: Byte, g: Byte, x: Byte, y: Byte, slots: seq<Ptr>, k2: Key)
    requires |p| == 64 && ZeroFree(p) && e != 0 && g != 0 && x != 0 && y != 0 && e != g && x != y && |slots| == 4
    ensures var low := Inner([], map[x := Leaf(p + [g, x], []), y := Leaf(p + [g, y], [])]);
            var t := Inner(p, map[e := Leaf(p + [e], []), g := low]);
            var body := Behind(Node4([], 2, [x, y, 0, 0], slots));
            && WF(t, []) && Roomy(t) && !DelFits(t, p + [e], 0)
            && (DelReads(t, p + [e], 0, body) <==> x == g)
            && (x == g && ZeroFree(k2) && k2 != p + [e] ==> Lookup(DelInner(t, p + [e], 0, body), k2, 0) == Lookup(t, k2, 0))
            && (x != g ==> Lookup(t, p + [g, x], 0) == Some([]) && Lookup(DelInner(t, p + [e], 0, body), p + [g, x], 0) == None)
  {
    hide WF, Roomy, Has, Lookup, DelInner, DelReads, DelFits, ZeroFree, Through, Without, Reads, Fits;
    var low := Inner([], map[x := Leaf(p + [g, x], []), y := Leaf(p + [g, y], [])]);
    var t := Inner(p, map[e := Leaf(p + [e], []), g := low]);
    var body := Behind(Node4([], 2, [x, y, 0, 0], slots));
    ThreeTree(p, e, g, x, y, low, t);
    LongNode(p, e, g, x, y, low, t, body);
    LongFound(p, e, t, body);
    NoPath(p + [g, x]);
    LookupIsHas(t, [], p + [g, x], []);
    if x == g {
      DeleteExact(t, p + [e], body);
    } else {
      WithoutLoses(t, e, [], body, p + [g, x], []);
    }
  }

  lemma LongFound(p: Key, e: Byte, t: Trie, body: Key)
    requires t.Inner? && t.prefix == p && WF(t, []) && ZeroFree(p + [e]) && e in t.kids && t.kids[e] == Leaf(p + [e], [])
    ensures DelInner(t, p + [e], 0, body) == Without(t, e, body)
    ensures (DelReads(t, p + [e], 0, body) <==> Reads(t, e, body)) && (DelFits(t, p + [e], 0) <==> Fits(t, e))
  {
    hide WF, Agree, Without, Reads, Fits;
    AgreesWith(p, p + [e], 0);
    assert EdgeByte(p + [e], |p|) == e;
  }

  lemma LongNode(p: Key, e: Byte, g: Byte, x: Byte, y: Byte, low: Trie, t: Trie, body: Key)
    requires |p| == PREFIX_BYTES && e != g && x != y && |body| > 0 && body[0] == x
    requires low == Inner([], map[x := Leaf(p + [g, x], []), y := Leaf(p + [g, y], [])])
    requires t == Inner(p, map[e := Leaf(p + [e], []), g := low])
    ensures Roomy(t) && e in t.kids && !Fits(t, e) && (Reads(t, e, body) <==> x == g)
    ensures |t.kids| == 2 && Sibling(t.kids, e) == g
  {
    hide Merged, Roomy;
    assert t.kids.Keys == {e, g};
    assert |t.kids| == |t.kids.Keys| == 2;
    SiblingOf(t.kids, e, g);
    KidRoomy(Leaf(p + [g, x], []), 0);
    KidRoomy(Leaf(p + [g, y], []), 0);
    TwoRoomy([], x, Leaf(p + [g, x], []), y, Leaf(p + [g, y], []));
    KidRoomy(Leaf(p + [e], []), 0);
    TwoRoomy(p, e, Leaf(p + [e], []), g, low);
    LongPrefixByte(p, g, body);
  }

  lemma LongPrefixByte(p: Key, g: Byte, body: Key)
    requires |p| == PREFIX_BYTES && |body| > 0
    ensures Merged(p, g, [], body) == p + [g] + [] <==> body[0] == g
  {
    var m := Merged(p, g, [], body);
    assert m[PREFIX_BYTES] == body[0];
    if body[0] == g { assert m == p + [g] + []; }
  }

  /** What a reader finds in the place of a prefix of more than 64 bytes: the node's first two keys lie there. */
  ghost predicate ReadAs(n: Node, read: Key)
    requires n.Node4? && |n.keys| == 4
  {
    && |read| == |n.prefix| && (forall i :: 0 <= i < |read| && i < PREFIX_BYTES ==> read[i] == n.prefix[i])
    && (PREFIX_BYTES < |read| ==> read[PREFIX_BYTES] == n.keys[0])
    && (PREFIX_BYTES + 1 < |read| ==> read[PREFIX_BYTES + 1] == n.keys[1])
  }

  /** Where a leaf split leaves more than 64 bytes to the prefix, both keys are lost unless the byte behind the
      header happens to be the old key's edge byte; with exactly 65 bytes that is the whole condition. */
  lemma LongPrefix(a: Key, k: Key, d: nat, read: Key)
    requires a != k && d <= |a| && d <= |k| && a[..d] == k[..d] && Common(a, d, k, d) > PREFIX_BYTES
    requires ReadAs(Split(a, k, d), read)
    ensures var p := Common(a, d, k, d);
            && d + p <= |k| && d + p <= |a| && a[d + PREFIX_BYTES] == k[d + PREFIX_BYTES]
            && (Agree(read, k, d) == p || Agree(read, a, d) == p ==> k[d + PREFIX_BYTES] == EdgeByte(a, d + p))
            && (p == PREFIX_BYTES + 1 && k[d + PREFIX_BYTES] == EdgeByte(a, d + p) ==> Agree(read, k, d) == p == Agree(read, a, d))
  {
    hide Common, EdgeByte, Agree, Split, ReadAs;
    var p := Common(a, d, k, d);
    SplitParts(a, k, d);
    ReadBehind(Split(a, k, d), read);
    if Agree(read, k, d) == p { AgreeAt(read, k, d); }
    if Agree(read, a, d) == p { AgreeAt(read, a, d); }
    if p == PREFIX_BYTES + 1 && k[d + PREFIX_BYTES] == EdgeByte(a, d + p) {
      ReadWhole(Split(a, k, d), read, k[d..d + p]);
      AgreesWith(read, k, d);
      AgreesWith(read, a, d);
    }
  }

  lemma SplitParts(a: Key, k: Key, d: nat)
    requires d <= |a| && d <= |k|
    ensures var p, n := Common(a, d, k, d), Split(a, k, d);
            && d + p <= |k| && d + p <= |a| && a[d..d + p] == k[d..d + p] && (p > PREFIX_BYTES ==> a[d + PREFIX_BYTES] == k[d + PREFIX_BYTES])
            && n.Node4? && |n.keys| == 4 && n.prefix == k[d..d + p] && n.keys[0] == EdgeByte(a, d + p)
  {
    hide Common, EdgeByte;
    CommonIs(a, d, k, d);
    var p := Common(a, d, k, d);
    if p > PREFIX_BYTES { assert a[d..d + p][PREFIX_BYTES] == k[d..d + p][PREFIX_BYTES]; }
  }

  lemma ReadBehind(n: Node, read: Key)
    requires n.Node4? && |n.keys| == 4 && ReadAs(n, read)
    ensures |read| == |n.prefix| && (|read| > PREFIX_BYTES ==> read[PREFIX_BYTES] == n.keys[0])
  {
  }

  lemma ReadWhole(n: Node, read: Key, whole: Key)
    requires n.Node4? && |n.keys| == 4 && ReadAs(n, read) && n.prefix == whole && |whole| == PREFIX_BYTES + 1 && n.keys[0] == whole[PREFIX_BYTES]
    ensures read == whole
  {
  }

  lemma AgreeAt(p: Key, k: Key, d: nat)
    requires d <= |k| && Agree(p, k, d) == |p|
    ensures d + |p| <= |k| && forall i :: 0 <= i < |p| ==> p[i] == k[d + i]
  {
    hide Common;
    CommonIs(p, 0, k, d);
    forall i | 0 <= i < |p| ensures p[i] == k[d + i] { assert p[0..|p|][i] == k[d..d + |p|][i]; }
  }
}
