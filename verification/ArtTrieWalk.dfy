/** Reading the tree in order: the walk that takes edges in ascending byte order, and the
    subtree that holds the keys with a given prefix. */
module ArtTrieWalk {
  import opened Options
  import opened Bytes
  import opened ArtTrie

  type Entry = (Key, Val)

  // ---------- Edges in ascending order ----------

  /** The edges of a node from byte `b` on, ascending. */
  ghost function EdgesFrom<T>(kids: map<Byte, T>, b: nat): seq<Byte>
    requires b <= 256
    decreases 256 - b
  {
    if b == 256 then [] else (if b in kids then [b] else []) + EdgesFrom(kids, b + 1)
  }

  ghost function Edges<T>(kids: map<Byte, T>): seq<Byte> {
    EdgesFrom(kids, 0)
  }

  ghost predicate Ascending(es: seq<Byte>) {
    forall i, j :: 0 <= i < j < |es| ==> es[i] < es[j]
  }

  lemma {:induction false} EdgesAre<T>(kids: map<Byte, T>, b: nat)
    requires b <= 256
    ensures Ascending(EdgesFrom(kids, b))
    ensures forall e :: e in EdgesFrom(kids, b) <==> e in kids && e >= b
    decreases 256 - b
  {
    if b < 256 {
      EdgesAre(kids, b + 1);
      var rest := EdgesFrom(kids, b + 1);
      forall i | 0 <= i < |rest| ensures rest[i] >= b + 1 { assert rest[i] in rest; }
    }
  }

  lemma {:induction false} EdgesCount<T>(kids: map<Byte, T>, b: nat)
    requires b <= 256
    ensures |EdgesFrom(kids, b)| == |set e | e in kids && e >= b|
    decreases 256 - b
  {
    var here := set e | e in kids && e >= b;
    if b == 256 {
      assert here == {};
    } else {
      EdgesCount(kids, b + 1);
      var next := set e | e in kids && e >= b + 1;
      assert here == next + (if b in kids then {b as Byte} else {});
    }
  }

  // ---------- The ordered walk ----------

  /** All entries below `t`, edge by edge in ascending order. */
  ghost function Walk(t: Trie): seq<Entry>
    decreases t, 1, 0
  {
    if t.Leaf? then [(t.key, t.val)]
    else
      EdgesAre(t.kids, 0);
      WalkKids(t, Edges(t.kids))
  }

  ghost function WalkKids(t: Trie, es: seq<Byte>): seq<Entry>
    requires t.Inner? && forall e :: e in es ==> e in t.kids
    decreases t, 0, |es|
  {
    if es == [] then []
    else Walk(t.kids[es[0]]) + WalkKids(t, es[1..])
  }

  lemma {:induction false} WalkHas(t: Trie, k: Key, v: Val)
    ensures (k, v) in Walk(t) <==> Has(t, k, v)
    decreases t, 1, 0
  {
    if t.Inner? {
      EdgesAre(t.kids, 0);
      WalkKidsHas(t, Edges(t.kids), k, v);
    }
  }

  lemma {:induction false} WalkKidsHas(t: Trie, es: seq<Byte>, k: Key, v: Val)
    requires t.Inner? && forall e :: e in es ==> e in t.kids
    ensures (k, v) in WalkKids(t, es) <==> exists b :: b in es && Has(t.kids[b], k, v)
    decreases t, 0, |es|
  {
    if es != [] {
      WalkHas(t.kids[es[0]], k, v);
      WalkKidsHas(t, es[1..], k, v);
      assert es == [es[0]] + es[1..];
    }
  }

  ghost predicate Sorted(s: seq<Entry>) {
    forall i, j :: 0 <= i < j < |s| ==> Less(s[i].0, s[j].0)
  }

  lemma SortedConcat(a: seq<Entry>, b: seq<Entry>)
    requires Sorted(a) && Sorted(b)
    requires forall x, y :: x in a && y in b ==> Less(x.0, y.0)
    ensures Sorted(a + b)
  {
    hide Less;
    var s := a + b;
    forall i, j | 0 <= i < j < |s| ensures Less(s[i].0, s[j].0) {
      if i < |a| <= j { assert a[i] in a && b[j - |a|] in b; }
    }
  }

  /** Keys below different edges of a node are ordered as the edges are. */
  lemma EdgesOrderKeys(t: Trie, pre: Key, b: Byte, c: Byte, x: Entry, y: Entry)
    requires t.Inner? && WF(t, pre) && b in t.kids && c in t.kids && b < c
    requires Has(t.kids[b], x.0, x.1) && Has(t.kids[c], y.0, y.1)
    ensures Less(x.0, y.0)
  {
    hide Compare, EdgeByte, ZeroFree, Through, WF, Has, Less;
    HasEdge(t, pre, x.0, x.1, b);
    HasEdge(t, pre, y.0, y.1, c);
    InnerPath(t, pre);
    PathInside(pre + t.prefix, x.0);
    PathInside(pre + t.prefix, y.0);
    EdgeOrder(x.0, y.0, |pre| + |t.prefix|);
  }

  /** The walk is strictly ascending: each key once, in lexicographic order. */
  lemma {:induction false} WalkSorted(t: Trie, pre: Key)
    requires WF(t, pre)
    ensures Sorted(Walk(t))
    decreases t, 1, 0
  {
    hide Less, ZeroFree, Through;
    if t.Inner? {
      EdgesAre(t.kids, 0);
      WalkKidsSorted(t, pre, Edges(t.kids));
    }
  }

  lemma {:induction false} WalkKidsSorted(t: Trie, pre: Key, es: seq<Byte>)
    requires t.Inner? && WF(t, pre) && Ascending(es) && forall e :: e in es ==> e in t.kids
    ensures Sorted(WalkKids(t, es))
    decreases t, 0, |es|
  {
    hide Less, ZeroFree, Through;
    if es != [] {
      WalkSorted(t.kids[es[0]], ChildPath(pre, t.prefix, es[0]));
      WalkKidsSorted(t, pre, es[1..]);
      var a, b := Walk(t.kids[es[0]]), WalkKids(t, es[1..]);
      forall x, y | x in a && y in b ensures Less(x.0, y.0) {
        WalkHas(t.kids[es[0]], x.0, x.1);
        WalkKidsHas(t, es[1..], y.0, y.1);
        var c :| c in es[1..] && Has(t.kids[c], y.0, y.1);
        EdgesOrderKeys(t, pre, es[0], c, x, y);
      }
      SortedConcat(a, b);
    }
  }

  // ---------- The subtree of a prefix ----------

  function Min(a: nat, b: nat): nat {
    if a < b then a else b
  }

  /** The descent that looks for the keys starting with `q`, with `d` bytes of it matched. */
  ghost function PrefixNode(t: Trie, q: Key, d: nat): Option<Trie>
    requires d <= |q|
  {
    match t
    case Leaf(k, _) => if q <= k then Some(t) else None
    case Inner(prefix, kids) =>
      if Agree(prefix, q, d) != Min(|prefix|, |q| - d) then None
      else if d + |prefix| >= |q| then Some(t)
      else if q[d + |prefix|] in kids then PrefixNode(kids[q[d + |prefix|]], q, d + |prefix| + 1)
      else None
  }

  /** What the bytes of `q` and the path of a node have to do with each other. */
  lemma PrefixAgrees(prefix: Key, pre: Key, q: Key)
    requires |pre| <= |q| && pre == q[..|pre|]
    ensures Agree(prefix, q, |pre|) == Min(|prefix|, |q| - |pre|)
            <==> pre + prefix <= q || q <= pre + prefix
  {
    hide Common;
    CommonIs(prefix, 0, q, |pre|);
    var r := Agree(prefix, q, |pre|);
    var m := Min(|prefix|, |q| - |pre|);
    var p := pre + prefix;
    assert p[|pre|..|pre| + r] == prefix[..r];
    if r == m {
      assert p[..|pre| + m] == q[..|pre|] + q[|pre|..|pre| + m] == q[..|pre| + m];
    } else {
      assert p[|pre| + r] == prefix[r] != q[|pre| + r];
    }
  }

  /** The subtree found holds exactly the stored keys that start with `q`, also when `q` ends inside a prefix. */
  lemma {:induction false} PrefixNodeExact(t: Trie, q: Key, pre: Key, k: Key, v: Val)
    requires WF(t, pre) && |pre| <= |q| && pre == q[..|pre|]
    ensures var s := PrefixNode(t, q, |pre|);
            Has(t, k, v) && q <= k <==> s.Some? && Has(s.value, k, v)
    decreases t, 1
  {
    hide ZeroFree, Through, Agree, EdgeByte;
    if t.Inner? {
      var p := pre + t.prefix;
      PrefixAgrees(t.prefix, pre, q);
      if Has(t, k, v) {
        PrefixOfKey(t, pre, k, v);
        PrefixesMeet(p, q, k);
      }
      if p <= q && |p| < |q| {
        PrefixDescends(t, q, pre, k, v);
      }
    }
  }

  lemma PrefixOfKey(t: Trie, pre: Key, k: Key, v: Val)
    requires t.Inner? && WF(t, pre) && Has(t, k, v)
    ensures pre + t.prefix <= k
  {
    hide EdgeByte;
    var b :| b in t.kids && Has(t.kids[b], k, v);
    HasEdge(t, pre, k, v, b);
    PathInside(pre + t.prefix, k);
  }

  lemma PrefixesMeet(p: Key, q: Key, k: Key)
    requires p <= k
    ensures q <= k ==> p <= q || q <= p
    ensures q <= p ==> q <= k
  {
    if q <= k {
      if |p| <= |q| { assert p == k[..|p|] == q[..|p|]; } else { assert q == k[..|q|] == p[..|q|]; }
    }
    if q <= p { assert q == p[..|q|] == k[..|q|]; }
  }

  lemma {:induction false} PrefixDescends(t: Trie, q: Key, pre: Key, k: Key, v: Val)
    requires t.Inner? && WF(t, pre) && |pre| <= |q| && pre == q[..|pre|]
    requires pre + t.prefix <= q && |pre + t.prefix| < |q|
    ensures var b := q[|pre| + |t.prefix|];
            Has(t, k, v) && q <= k <==>
              b in t.kids && var s := PrefixNode(t.kids[b], q, |pre| + |t.prefix| + 1); s.Some? && Has(s.value, k, v)
    decreases t, 0
  {
    hide ZeroFree, Through, Agree;
    var n := |pre| + |t.prefix|;
    var b := q[n];
    forall c | c in t.kids && Has(t.kids[c], k, v) && q <= k ensures c == b {
      HasEdge(t, pre, k, v, c);
      assert k[n] == q[n];
    }
    if b in t.kids {
      assert q[..n + 1] == ChildPath(pre, t.prefix, b);
      PrefixNodeExact(t.kids[b], q, ChildPath(pre, t.prefix, b), k, v);
    }
  }
}
