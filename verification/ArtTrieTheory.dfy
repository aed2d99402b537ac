/** What the index promises over whole histories: the tree is a map, its shape depends on that
    map alone, and a fresh insert followed by a delete leaves no trace. */
module ArtTrieTheory {
  import opened Options
  import opened Bytes
  import opened ArtTrie
  import opened ArtTrieDelete
  import opened ArtLimits

  // ---------- The shape is canonical ----------

  /** An inner node holds two keys that leave it by different edges. */
  lemma TwoBranches(t: Trie, pre: Key) returns (a: Key, x: Val, b: Key, y: Val)
    requires t.Inner? && WF(t, pre)
    ensures Has(t, a, x) && Has(t, b, y)
    ensures EdgeByte(a, |pre| + |t.prefix|) != EdgeByte(b, |pre| + |t.prefix|)
  {
    hide EdgeByte, ZeroFree, Through;
    var c :| c in t.kids;
    var d := OtherKey(t.kids, c);
    a, x := SomeKey(t.kids[c], ChildPath(pre, t.prefix, c));
    b, y := SomeKey(t.kids[d], ChildPath(pre, t.prefix, d));
    HasEdge(t, pre, a, x, c);
    HasEdge(t, pre, b, y, d);
  }

  lemma OtherKey(kids: map<Byte, Trie>, c: Byte) returns (d: Byte)
    requires |kids| >= 2 && c in kids
    ensures d in kids && d != c
  {
    assert |kids.Keys - {c}| == |kids| - 1;
    d :| d in kids.Keys - {c};
  }

  lemma InnerKey(t: Trie, pre: Key, k: Key, v: Val)
    requires t.Inner? && WF(t, pre) && Has(t, k, v)
    ensures Through(pre + t.prefix, k) && EdgeByte(k, |pre| + |t.prefix|) in t.kids
    ensures Has(t.kids[EdgeByte(k, |pre| + |t.prefix|)], k, v)
  {
    hide EdgeByte, ZeroFree, Through;
    var b :| b in t.kids && Has(t.kids[b], k, v);
    HasEdge(t, pre, k, v, b);
  }

  lemma NoLongerPath(t: Trie, u: Trie, pre: Key)
    requires t.Inner? && u.Inner? && WF(t, pre) && WF(u, pre)
    requires forall k, v :: Has(t, k, v) ==> Has(u, k, v)
    ensures |u.prefix| <= |t.prefix|
  {
    hide EdgeByte, ZeroFree, Through, WF, Has;
    var a, x, b, y := TwoBranches(t, pre);
    InnerKey(u, pre, a, x);
    InnerKey(u, pre, b, y);
    InnerPath(u, pre);
    if |t.prefix| < |u.prefix| {
      SameEdge(pre + u.prefix, a, b, |pre| + |t.prefix|);
    }
  }

  lemma SameEdge(p: Key, a: Key, b: Key, n: nat)
    requires ZeroFree(p) && Through(p, a) && Through(p, b) && n < |p|
    ensures EdgeByte(a, n) == EdgeByte(b, n)
  {
    PathInside(p, a);
    PathInside(p, b);
  }

  lemma SamePath(p: Key, q: Key, k: Key)
    requires Through(p, k) && Through(q, k) && |p| == |q|
    ensures p == q
  {
    assert p == Term(k)[..|p|] == q;
  }

  lemma SamePrefix(t: Trie, u: Trie, pre: Key)
    requires t.Inner? && u.Inner? && WF(t, pre) && WF(u, pre)
    requires forall k, v :: Has(t, k, v) <==> Has(u, k, v)
    ensures t.prefix == u.prefix
  {
    hide EdgeByte, ZeroFree, Through, WF, Has;
    NoLongerPath(t, u, pre);
    NoLongerPath(u, t, pre);
    var k, v := SomeKey(t, pre);
    InnerKey(t, pre, k, v);
    InnerKey(u, pre, k, v);
    SamePath(pre + t.prefix, pre + u.prefix, k);
    assert t.prefix == (pre + t.prefix)[|pre|..];
    assert u.prefix == (pre + u.prefix)[|pre|..];
  }

  /** Where the prefixes agree, an edge of one tree is an edge of the other, with the same keys below it. */
  lemma SameEdges(t: Trie, u: Trie, pre: Key, b: Byte)
    requires t.Inner? && u.Inner? && WF(t, pre) && WF(u, pre) && t.prefix == u.prefix && b in t.kids
    requires forall k, v :: Has(t, k, v) ==> Has(u, k, v)
    ensures b in u.kids
    ensures forall k, v :: Has(t.kids[b], k, v) ==> Has(u.kids[b], k, v)
  {
    hide EdgeByte, ZeroFree, Through;
    forall k, v | Has(t.kids[b], k, v) ensures b in u.kids && Has(u.kids[b], k, v) {
      assert Has(t, k, v);
      HasEdge(t, pre, k, v, b);
      InnerKey(u, pre, k, v);
    }
    var k, v := SomeKey(t.kids[b], ChildPath(pre, t.prefix, b));
  }

  lemma LeafOrInner(t: Trie, u: Trie, pre: Key)
    requires WF(t, pre) && WF(u, pre) && t.Leaf? && u.Inner?
    ensures exists k, v :: Has(u, k, v) && !Has(t, k, v)
  {
    var a, x, b, y := TwoBranches(u, pre);
    assert a != b;
    assert Has(u, a, x) && Has(u, b, y);
  }

  /** Two well-formed trees with the same contents are the same tree. */
  lemma {:induction false} Canonical(t: Trie, u: Trie, pre: Key)
    requires WF(t, pre) && WF(u, pre)
    requires forall k, v :: Has(t, k, v) <==> Has(u, k, v)
    ensures t == u
    decreases t, 1
  {
    hide EdgeByte, ZeroFree, Through;
    if t.Leaf? && u.Inner? {
      LeafOrInner(t, u, pre);
    } else if t.Inner? && u.Leaf? {
      LeafOrInner(u, t, pre);
    } else if t.Leaf? {
      assert Has(t, t.key, t.val);
    } else {
      SamePrefix(t, u, pre);
      forall b | b in t.kids || b in u.kids ensures b in t.kids && b in u.kids && t.kids[b] == u.kids[b] {
        CanonicalKid(t, u, pre, b);
      }
      assert t.kids == u.kids;
    }
  }

  lemma {:induction false} CanonicalKid(t: Trie, u: Trie, pre: Key, b: Byte)
    requires t.Inner? && u.Inner? && WF(t, pre) && WF(u, pre) && t.prefix == u.prefix
    requires forall k, v :: Has(t, k, v) <==> Has(u, k, v)
    requires b in t.kids || b in u.kids
    ensures b in t.kids && b in u.kids && t.kids[b] == u.kids[b]
    decreases t, 0
  {
    hide EdgeByte, ZeroFree, Through;
    if b in t.kids { SameEdges(t, u, pre, b); } else { SameEdges(u, t, pre, b); }
    SameEdges(t, u, pre, b);
    SameEdges(u, t, pre, b);
    Canonical(t.kids[b], u.kids[b], ChildPath(pre, t.prefix, b));
  }

  // ---------- Insert, then delete ----------

  /** Inserting a fresh key and deleting it again restores the very same tree, splits and merges
      included, if and only if the prefix that the delete's collapse leaves reads right. */
  lemma InsertDeleteRestores(t: Trie, k: Key, v: Val, body: Key)
    requires WF(t, []) && Roomy(t) && ZeroFree(k) && Through([], k) && InsFits(t, k, 0) && (forall w :: !Has(t, k, w))
    ensures var s := Ins(t, k, v, []); Del(s, k, body) == Some(t) <==> DelReads(s, k, 0, body)
  {
    hide ZeroFree, Through, DelReads, Has, WF, DelInner;
    var s := Ins(t, k, v, []);
    InsCorrect(t, k, v, []);
    GrownIsInner(t, k, v);
    if DelReads(s, k, 0, body) {
      DelCorrect(s, k, [], body);
      Canonical(DelInner(s, k, 0, body), t, []);
    } else {
      var k2, v2 := DelLoses(s, k, [], body);
      assert Has(t, k2, v2);
      HasPath(t, [], k2, v2);
      LookupIsHas(t, [], k2, v2);
    }
  }

  lemma GrownIsInner(t: Trie, k: Key, v: Val)
    requires WF(t, []) && ZeroFree(k) && Through([], k) && (forall w :: !Has(t, k, w))
    ensures Ins(t, k, v, []).Inner?
  {
    if t.Leaf? {
      assert !Has(t, t.key, t.val) || t.key != k;
    }
  }

  // ---------- Keys that share at most ten bytes never meet a long collapse ----------

  ghost predicate ShortShared(keys: iset<Key>) {
    forall a, b :: a in keys && b in keys && a != b ==> Common(a, 0, b, 0) <= COLLAPSE_BYTES
  }

  ghost predicate KeysIn(t: Trie, keys: iset<Key>) {
    forall k, v :: Has(t, k, v) ==> k in keys
  }

  lemma {:induction false} CommonAtLeast(a: Key, b: Key, i: nat, n: nat)
    requires i <= n <= |a| && n <= |b| && a[..n] == b[..n]
    ensures Common(a, i, b, i) >= n - i
    decreases n - i
  {
    if i < n {
      assert a[i] == a[..n][i] == b[..n][i] == b[i];
      CommonAtLeast(a, b, i + 1, n);
    }
  }

  /** Under such keys no inner node sits deeper than ten bytes. */
  lemma InnerIsShallow(t: Trie, pre: Key, keys: iset<Key>)
    requires t.Inner? && WF(t, pre) && KeysIn(t, keys) && ShortShared(keys)
    ensures |pre| + |t.prefix| <= COLLAPSE_BYTES
  {
    hide EdgeByte, Through, ZeroFree, WF, Has;
    var a, x, b, y := TwoBranches(t, pre);
    InnerKey(t, pre, a, x);
    InnerKey(t, pre, b, y);
    InnerPath(t, pre);
    var p := pre + t.prefix;
    PathInside(p, a);
    PathInside(p, b);
    CommonAtLeast(a, b, 0, |p|);
  }

  lemma {:induction false} ShortFits(t: Trie, k: Key, pre: Key, keys: iset<Key>)
    requires WF(t, pre) && KeysIn(t, keys) && ShortShared(keys)
    ensures DelFits(t, k, |pre|)
  {
    hide Through, ZeroFree, Common, Agree, ShortShared, Has, Fits, KeysIn;
    if t.Inner? {
      var e := EdgeByte(k, |pre| + |t.prefix|);
      if e in t.kids {
        KidKeysIn(t, keys, e);
        ShortFits(t.kids[e], k, ChildPath(pre, t.prefix, e), keys);
        ShortFitsHere(t, pre, e, keys);
      }
    }
  }

  lemma KidKeysIn(t: Trie, keys: iset<Key>, b: Byte)
    requires t.Inner? && KeysIn(t, keys) && b in t.kids
    ensures KeysIn(t.kids[b], keys)
  {
    forall k, v | Has(t.kids[b], k, v) ensures k in keys { assert Has(t, k, v); }
  }

  lemma ShortFitsHere(t: Trie, pre: Key, b: Byte, keys: iset<Key>)
    requires t.Inner? && WF(t, pre) && KeysIn(t, keys) && ShortShared(keys) && b in t.kids
    ensures Fits(t, b)
  {
    hide ShortShared, KeysIn, Has, ZeroFree, Through;
    if |t.kids| == 2 {
      var c := Sibling(t.kids, b);
      if t.kids[c].Inner? {
        KidKeysIn(t, keys, c);
        InnerIsShallow(t.kids[c], ChildPath(pre, t.prefix, c), keys);
      }
    }
  }

  // ---------- Where the promises end ----------

  /** Why keys must be zero-free: where two different keys part they select the same edge if and only if
      one of them is the other followed by a zero byte and whatever comes after it. */
  lemma ZeroByteCollides(a: Key, b: Key)
    requires a != b
    ensures var n := Common(a, 0, b, 0);
            EdgeByte(a, n) == EdgeByte(b, n) <==> Term(a) <= b || Term(b) <= a
  {
    hide Common;
    CommonIs(a, 0, b, 0);
    var n := Common(a, 0, b, 0);
    TermPrefix(a, b, n);
    TermPrefix(b, a, n);
  }

  lemma TermPrefix(a: Key, b: Key, n: nat)
    requires n <= |a| && n <= |b| && a[0..n] == b[0..n] && a != b && (n < |a| && n < |b| ==> a[n] != b[n])
    ensures Term(a) <= b <==> n == |a| < |b| && b[n] == 0
  {
    if n == |a| && n < |b| && b[n] == 0 {
      assert b[..n + 1] == Term(a);
    }
    if n < |a| && n < |b| {
      assert Term(a)[n] != b[n];
    }
    if Term(a) <= b {
      assert b[|a|] == Term(a)[|a|] == 0;
    }
  }

  /** A delete that loses another key: three keys that share ten bytes. */
  lemma DeleteLosesExample(body: Key)
    ensures var p: Key := [1, 1, 1, 1, 1, 1, 1, 1, 1, 1];
            var a, b, c := p + [2], p + [3, 4], p + [3, 5];
            var t := Inner(p, map[2 := Leaf(a, []), 3 := Inner([], map[4 := Leaf(b, []), 5 := Leaf(c, [])])]);
            && WF(t, []) && ZeroFree(a) && ZeroFree(b) && Lookup(t, b, 0) == Some([])
            && Lookup(DelInner(t, a, 0, body), b, 0) == None
  {
    hide WF, Lookup, DelInner;
    var p: Key := [1, 1, 1, 1, 1, 1, 1, 1, 1, 1];
    var a, b, c := p + [2], p + [3, 4], p + [3, 5];
    var low := Inner([], map[4 := Leaf(b, []), 5 := Leaf(c, [])]);
    var t := Inner(p, map[2 := Leaf(a, []), 3 := low]);
    ThreeTree(p, 2, 3, 4, 5, low, t);
    LosesKey(p, a, b, c, low, t, body);
  }

  /** Three keys: one on the edge `e`, two below the edge `g` that part right behind it. */
  lemma ThreeTree(p: Key, e: Byte, g: Byte, x: Byte, y: Byte, low: Trie, t: Trie)
    requires ZeroFree(p) && e != 0 && g != 0 && x != 0 && y != 0 && e != g && x != y
    requires low == Inner([], map[x := Leaf(p + [g, x], []), y := Leaf(p + [g, y], [])])
    requires t == Inner(p, map[e := Leaf(p + [e], []), g := low])
    ensures WF(t, []) && WF(low, p + [g]) && Has(t, p + [e], []) && Has(t, p + [g, x], []) && Has(low, p + [g, x], []) && ZeroFree(p + [e]) && ZeroFree(p + [g, x])
  {
    hide WF, Has, Through;
    var q := ChildPath([], p, g);
    assert [] + p == p && q == p + [g] && q + [] == q;
    var a, b, c := p + [e], p + [g, x], p + [g, y];
    assert ChildPath(q, [], x) == b && ChildPath(q, [], y) == c && ChildPath([], p, e) == a;
    OwnPath(a);
    OwnPath(b);
    OwnPath(c);
    TwoLeaves(q, x, y, b, c, low);
    BranchCorrect(p, e, Leaf(a, []), g, low, []);
    LeafIs(Leaf(a, []), a);
  }

  lemma TwoLeaves(q: Key, x: Byte, y: Byte, b: Key, c: Key, low: Trie)
    requires ChildPath(q, [], x) == b && ChildPath(q, [], y) == c && x != y && ZeroFree(q) && ZeroFree(b) && ZeroFree(c)
    requires low == Inner([], map[x := Leaf(b, []), y := Leaf(c, [])])
    ensures WF(low, q) && Has(low, b, [])
  {
    hide WF, Has, Through, ZeroFree;
    assert q + [] == q;
    OwnPath(b);
    OwnPath(c);
    BranchCorrect([], x, Leaf(b, []), y, Leaf(c, []), q);
    LeafIs(Leaf(b, []), b);
  }

  lemma OwnPath(k: Key)
    requires ZeroFree(k)
    ensures WF(Leaf(k, []), k)
  {
    hide ZeroFree;
    PrefixOfPath(k, k, |k|);
  }

  lemma LosesKey(p: Key, a: Key, b: Key, c: Key, low: Trie, t: Trie, body: Key)
    requires |p| == 10 && ZeroFree(p) && a == p + [2] && b == p + [3, 4]
    requires low == Inner([], map[4 := Leaf(b, []), 5 := Leaf(c, [])])
    requires t == Inner(p, map[2 := Leaf(a, []), 3 := low]) && WF(t, []) && Has(t, a, []) && Has(t, b, []) && ZeroFree(a) && ZeroFree(b)
    ensures Lookup(t, b, 0) == Some([]) && Lookup(DelInner(t, a, 0, body), b, 0) == None
  {
    hide WF, Has, ZeroFree, Through, Agree, Without, Lookup, Reads;
    NoPath(b);
    LookupIsHas(t, [], b, []);
    assert EdgeByte(a, 10) == 2;
    PrefixOfPath(p, a, 10);
    InnerPath(t, []);
    assert [] + p == p;
    PrefixTest(p, [], a) by { NoPath(a); }
    LosesSibling(p, b, low, t, body);
    assert DelInner(t, a, 0, body) == Without(t, 2, body);
    WithoutLoses(t, 2, [], body, b, []);
  }

  lemma LosesSibling(p: Key, b: Key, low: Trie, t: Trie, body: Key)
    requires |p| == 10 && ZeroFree(p) && low.Inner? && low.prefix == []
    requires t.Inner? && t.prefix == p && t.kids.Keys == {2, 3} && t.kids[3] == low && t.kids[2].Leaf? && t.kids[2].key != b && Has(t, b, [])
    ensures |t.kids| == 2 && Sibling(t.kids, 2) == 3 && !Reads(t, 2, body) && Has(low, b, [])
  {
    hide Merged;
    assert |t.kids| == |t.kids.Keys| == 2;
    SiblingOf(t.kids, 2, 3);
    MergedLong(p, 3, [], body);
  }

  lemma SiblingOf(kids: map<Byte, Trie>, b: Byte, c: Byte)
    requires |kids| == 2 && b in kids && c in kids && b != c
    ensures Sibling(kids, b) == c
  {
  }

  // ---------- Histories ----------

  datatype Op = Insert(key: Key, val: Val) | Delete(key: Key)

  /** The index after one operation. The bytes `body` behind a copied node's header matter only to a delete
      whose collapse does not fit. */
  ghost function Apply(root: Option<Trie>, op: Op, body: Key := []): Option<Trie>
    requires root.Some? ==> WF(root.value, [])
    requires ZeroFree(op.key) && Through([], op.key)
  {
    match op
    case Insert(k, v) => if root.None? then Some(Leaf(k, v)) else Some(Ins(root.value, k, v, []))
    case Delete(k) => if root.None? then None else Del(root.value, k, body)
  }

  /** The map after one operation. */
  ghost function ApplyMap(m: map<Key, Val>, op: Op): map<Key, Val> {
    match op
    case Insert(k, v) => m[k := v]
    case Delete(k) => m - {k}
  }

  ghost function RunMap(ops: seq<Op>): map<Key, Val> {
    if ops == [] then map[] else ApplyMap(RunMap(ops[..|ops| - 1]), ops[|ops| - 1])
  }

  /** The tree is well formed and stores exactly the map. */
  ghost predicate Maps(root: Option<Trie>, m: map<Key, Val>) {
    match root
    case None => m == map[]
    case Some(t) => WF(t, []) && Stores(t, m)
  }

  /** In addition the tree is within the limits of its nodes. */
  ghost predicate Holds(root: Option<Trie>, m: map<Key, Val>) {
    Maps(root, m) && (root.Some? ==> Roomy(root.value))
  }

  ghost predicate Stores(t: Trie, m: map<Key, Val>) {
    forall k, v :: Has(t, k, v) <==> k in m && m[k] == v
  }

  lemma NoPath(k: Key)
    ensures Through([], k)
  {
  }

  /** The guard of an operation, to be checked before it: a delete collapses within ten prefix bytes, and an
      insert leaves every node with at most 255 children and 64 prefix bytes. */
  ghost predicate OpFits(root: Option<Trie>, op: Op) {
    root.Some? ==> if op.Delete? then DelFits(root.value, op.key, 0) else InsFits(root.value, op.key, 0)
  }

  /** The weaker guard of an operation: every prefix it leaves reads right, whether or not its nodes can count
      their children. */
  ghost predicate OpReads(root: Option<Trie>, op: Op, body: Key) {
    root.Some? ==> if op.Delete? then DelReads(root.value, op.key, 0, body) else InsReads(root.value, op.key, 0)
  }

  lemma OpFitsReads(root: Option<Trie>, op: Op, body: Key)
    requires OpFits(root, op)
    ensures OpReads(root, op, body)
  {
    hide DelFits, DelReads, InsFits, InsReads;
    if root.Some? {
      if op.Delete? { DelFitsReads(root.value, op.key, 0, body); } else { InsFitsReads(root.value, op.key, 0); }
    }
  }

  /** One operation that leaves prefixes which read right keeps the tree equal to the map. */
  lemma ApplyMaps(root: Option<Trie>, m: map<Key, Val>, op: Op, body: Key)
    requires Maps(root, m) && ZeroFree(op.key) && OpReads(root, op, body)
    ensures Through([], op.key) && Maps(Apply(root, op, body), ApplyMap(m, op))
  {
    hide Through, ZeroFree, WF, Has, DelInner, DelReads, Ins, InsReads;
    NoPath(op.key);
    if root.None? {
      if op.Insert? { FirstMaps(op.key, op.val); }
    } else if op.Insert? {
      InsCorrect(root.value, op.key, op.val, []);
    } else if root.value.Leaf? {
      DeleteRootLeaf(root.value, m, op.key);
    } else {
      DelCorrect(root.value, op.key, [], body);
    }
  }

  lemma FirstMaps(k: Key, v: Val)
    requires ZeroFree(k)
    ensures Maps(Some(Leaf(k, v)), map[k := v])
  {
    NoPath(k);
    LeafIs(Leaf(k, v), []);
  }

  /** One operation that fits also keeps the tree within its limits. */
  lemma ApplyKeeps(root: Option<Trie>, m: map<Key, Val>, op: Op, body: Key := [])
    requires Holds(root, m) && ZeroFree(op.key) && OpFits(root, op)
    ensures Through([], op.key) && Holds(Apply(root, op, body), ApplyMap(m, op))
  {
    hide Through, ZeroFree, WF, Has, DelInner, DelFits, DelReads, Ins, InsFits, InsReads, Stores, OpReads;
    OpFitsReads(root, op, body);
    ApplyMaps(root, m, op, body);
    if root.Some? && op.Insert? {
      InsRoomy(root.value, op.key, op.val, []);
    } else if root.Some? && root.value.Inner? {
      DelRoomy(root.value, op.key, 0, body);
    }
  }

  /** To an operation that fits, the bytes behind the copied node's header do not matter. */
  lemma BodyFree(root: Option<Trie>, m: map<Key, Val>, op: Op, body: Key)
    requires Holds(root, m) && ZeroFree(op.key) && OpFits(root, op)
    ensures Through([], op.key) && Apply(root, op, body) == Apply(root, op)
  {
    hide WF, Has, ZeroFree, Roomy, OpFits, Apply;
    ApplyKeeps(root, m, op, body);
    ApplyKeeps(root, m, op);
    SameTree(Apply(root, op, body), ApplyMap(m, op), Apply(root, op), ApplyMap(m, op));
  }

  /** Search answers from the map. */
  lemma HoldsLookup(t: Trie, m: map<Key, Val>, k: Key)
    requires Maps(Some(t), m) && ZeroFree(k)
    ensures Lookup(t, k, 0) == if k in m then Some(m[k]) else None
  {
    hide WF, Has, ZeroFree;
    NoPath(k);
    if k in m { LookupIsHas(t, [], k, m[k]); }
    if Lookup(t, k, 0).Some? { LookupIsHas(t, [], k, Lookup(t, k, 0).value); }
  }

  lemma DeleteRootLeaf(t: Trie, m: map<Key, Val>, k: Key)
    requires t.Leaf? && Stores(t, m)
    ensures t.key == k ==> m - {k} == map[]
    ensures t.key != k ==> m - {k} == m
  {
    forall x | x in m ensures x == t.key { assert Has(t, x, m[x]); }
  }

  /** Every operation of a history that starts empty fits where it is applied. */
  ghost predicate AllFit(ops: seq<Op>)
    decreases |ops|, 0
  {
    ops == [] ||
    var n := |ops| - 1;
    AllFit(ops[..n]) && ZeroFree(ops[n].key) && OpFits(RunTree(ops[..n]), ops[n])
  }

  /** The index after such a history: it always holds the map. */
  ghost function RunTree(ops: seq<Op>): (root: Option<Trie>)
    requires AllFit(ops)
    ensures Holds(root, RunMap(ops))
    decreases |ops|, 1
  {
    if ops == [] then None
    else
      var n := |ops| - 1;
      ApplyKeeps(RunTree(ops[..n]), RunMap(ops[..n]), ops[n]);
      Apply(RunTree(ops[..n]), ops[n])
  }

  /** Two histories leave the same tree exactly when they leave the same map. */
  lemma HistoryIndependent(ops1: seq<Op>, ops2: seq<Op>)
    requires AllFit(ops1) && AllFit(ops2)
    ensures RunTree(ops1) == RunTree(ops2) <==> RunMap(ops1) == RunMap(ops2)
  {
    hide WF, Has, ZeroFree, Holds;
    SameTree(RunTree(ops1), RunMap(ops1), RunTree(ops2), RunMap(ops2));
  }

  /** Keys that share at most ten bytes and all leave out some byte value: under them every history fits. */
  ghost predicate Plain(keys: iset<Key>, absent: Byte) {
    ShortShared(keys) && absent != 0 && forall k, i :: k in keys && 0 <= i < |k| ==> k[i] != absent
  }

  lemma {:induction false} PlainFits(ops: seq<Op>, keys: iset<Key>, absent: Byte)
    requires Plain(keys, absent) && forall i :: 0 <= i < |ops| ==> ZeroFree(ops[i].key) && ops[i].key in keys
    ensures AllFit(ops) && forall k :: k in RunMap(ops) ==> k in keys
    decreases |ops|
  {
    hide ZeroFree, Plain, OpFits, Apply;
    if ops != [] {
      var n := |ops| - 1;
      PlainFits(ops[..n], keys, absent);
      PlainOne(RunTree(ops[..n]), RunMap(ops[..n]), ops[n], keys, absent);
    }
  }

  /** Under such keys one operation fits. */
  lemma PlainOne(root: Option<Trie>, m: map<Key, Val>, op: Op, keys: iset<Key>, absent: Byte)
    requires Plain(keys, absent) && Holds(root, m) && ZeroFree(op.key) && op.key in keys && forall k :: k in m ==> k in keys
    ensures OpFits(root, op)
  {
    hide ZeroFree, ShortShared, DelFits, InsFits, WF, Has, Roomy;
    if root.Some? {
      NoPath(op.key);
      StoredIn(root.value, m, keys);
      ShortFits(root.value, op.key, [], keys);
      ShortInsFits(root.value, op.key, [], keys, absent);
    }
  }

  lemma StoredIn(t: Trie, m: map<Key, Val>, keys: iset<Key>)
    requires Stores(t, m) && forall k :: k in m ==> k in keys
    ensures KeysIn(t, keys)
  {
    hide Has;
    forall k, v | Has(t, k, v) ensures k in keys { assert k in m; }
  }

  lemma {:induction false} ShortInsFits(t: Trie, k: Key, pre: Key, keys: iset<Key>, absent: Byte)
    requires WF(t, pre) && KeysIn(t, keys) && Plain(keys, absent) && k in keys && ZeroFree(k) && Through(pre, k)
    ensures InsFits(t, k, |pre|)
    decreases t
  {
    hide Through, ZeroFree, Common, Agree, Plain, Has, KeysIn, EdgeByte;
    if t.Leaf? {
      if t.key != k {
        LeafDepth(t, k, pre);
        LeafKeyIn(t, keys);
        ShortCommon(t.key, k, |pre|, keys, absent);
      }
    } else {
      PrefixTest(t.prefix, pre, k);
      if Agree(t.prefix, k, |pre|) == |t.prefix| {
        var b := EdgeByte(k, |pre| + |t.prefix|);
        PathExtends(pre + t.prefix, k, b);
        if b in t.kids {
          KidKeysIn(t, keys, b);
          ShortInsFits(t.kids[b], k, ChildPath(pre, t.prefix, b), keys, absent);
        } else {
          EdgePresent(keys, absent, k, |pre| + |t.prefix|);
          NotFull(t, pre, keys, absent, b);
        }
      }
    }
  }

  lemma ShortCommon(a: Key, k: Key, d: nat, keys: iset<Key>, absent: Byte)
    requires a in keys && k in keys && a != k && Plain(keys, absent) && d <= |a| && d <= |k| && a[..d] == k[..d]
    ensures Common(a, d, k, d) <= COLLAPSE_BYTES
  {
    hide Common;
    CommonIs(a, d, k, d);
    var n := d + Common(a, d, k, d);
    assert a[..n] == a[..d] + a[d..n] && k[..n] == k[..d] + k[d..n];
    CommonAtLeast(a, k, 0, n);
  }

  /** No edge carries the absent byte, and none the byte of a new child. */
  lemma NotFull(t: Trie, pre: Key, keys: iset<Key>, absent: Byte, b: Byte)
    requires t.Inner? && WF(t, pre) && KeysIn(t, keys) && Plain(keys, absent) && b !in t.kids && b != absent
    ensures |t.kids| < MOST_CHILDREN
  {
    hide Through, ZeroFree, Has, WF, ShortShared, EdgeByte;
    forall c | c in t.kids ensures c != absent && c != b {
      var k, v := KidKey(t, pre, c);
      EdgePresent(keys, absent, k, |pre| + |t.prefix|);
    }
    BytesBut(t.kids.Keys, absent, b);
    assert |t.kids| == |t.kids.Keys|;
  }

  lemma KidKey(t: Trie, pre: Key, c: Byte) returns (k: Key, v: Val)
    requires t.Inner? && WF(t, pre) && c in t.kids
    ensures Has(t, k, v) && EdgeByte(k, |pre| + |t.prefix|) == c
  {
    hide Through, ZeroFree, EdgeByte;
    k, v := SomeKey(t.kids[c], ChildPath(pre, t.prefix, c));
    HasEdge(t, pre, k, v, c);
  }

  lemma EdgePresent(keys: iset<Key>, absent: Byte, k: Key, d: nat)
    requires k in keys && Plain(keys, absent)
    ensures EdgeByte(k, d) != absent
  {
    hide ShortShared;
  }

  lemma LeafKeyIn(t: Trie, keys: iset<Key>)
    requires t.Leaf? && KeysIn(t, keys)
    ensures t.key in keys
  {
    assert Has(t, t.key, t.val);
  }

  ghost function BytesBelow(n: nat): set<Byte>
    requires n <= 256
  {
    if n == 0 then {} else BytesBelow(n - 1) + {n - 1}
  }

  lemma {:induction false} BytesCount(n: nat)
    requires n <= 256
    ensures |BytesBelow(n)| == n && forall b: Byte :: b in BytesBelow(n) <==> b < n
  {
    if n > 0 { BytesCount(n - 1); }
  }

  lemma BytesBut(s: set<Byte>, a: Byte, b: Byte)
    requires a !in s && b !in s && a != b
    ensures |s| < MOST_CHILDREN
  {
    hide BytesBelow;
    BytesCount(256);
    SmallerSet(s + {a} + {b}, BytesBelow(256));
  }

  lemma SmallerSet(a: set<Byte>, b: set<Byte>)
    requires a <= b
    ensures |a| <= |b|
  {
    assert b == a + (b - a);
  }

  lemma SameTree(r1: Option<Trie>, m1: map<Key, Val>, r2: Option<Trie>, m2: map<Key, Val>)
    requires Holds(r1, m1) && Holds(r2, m2)
    ensures r1 == r2 <==> m1 == m2
  {
    hide WF, Has;
    if r1.Some? { var k, v := SomeKey(r1.value, []); }
    if r2.Some? { var k, v := SomeKey(r2.value, []); }
    if r1.Some? && r2.Some? {
      if m1 == m2 {
        Canonical(r1.value, r2.value, []);
      }
      if r1 == r2 {
        forall k | k in m1 ensures k in m2 && m2[k] == m1[k] { assert Has(r1.value, k, m1[k]); }
        forall k | k in m2 ensures k in m1 { assert Has(r2.value, k, m2[k]); }
      }
    }
  }
}
