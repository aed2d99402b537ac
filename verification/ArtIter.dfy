/** The ordered iterator: an explicit stack of frames over the nodes of the index, with inclusive
    bounds, started at the root or at the subtree of a prefix. */
module ArtIter {
  import opened Options
  import opened Bytes
  import opened ArtTrie
  import opened ArtTrieWalk
  import opened ArtNode
  import opened ArtStore
  import opened ArtIndex
  import opened ArtChildOrder

  // ---------- What an iteration yields ----------

  /** The entry that the next step yields from the walk that is left, and the walk left after it:
      entries before `lo` are skipped, the first one after `hi` ends the iteration. */
  ghost function NextOf(rest: seq<Entry>, lo: Option<Key>, hi: Option<Key>): Option<(Entry, seq<Entry>)> {
    if rest == [] || (hi.Some? && Compare(rest[0].0, hi.value) > 0) then None
    else if lo.Some? && Compare(rest[0].0, lo.value) < 0 then NextOf(rest[1..], lo, hi)
    else Some((rest[0], rest[1..]))
  }

  lemma {:induction false} NextShorter(rest: seq<Entry>, lo: Option<Key>, hi: Option<Key>)
    ensures NextOf(rest, lo, hi).Some? ==> |NextOf(rest, lo, hi).value.1| < |rest|
  {
    if rest != [] { NextShorter(rest[1..], lo, hi); }
  }

  /** All entries that stepping to the end yields. */
  ghost function Drain(rest: seq<Entry>, lo: Option<Key>, hi: Option<Key>): seq<Entry>
    decreases |rest|
  {
    NextShorter(rest, lo, hi);
    var n := NextOf(rest, lo, hi);
    if n.None? then [] else [n.value.0] + Drain(n.value.1, lo, hi)
  }

  ghost predicate InRange(k: Key, lo: Option<Key>, hi: Option<Key>) {
    (lo.Some? ==> !Less(k, lo.value)) && (hi.Some? ==> !Less(hi.value, k))
  }

  lemma {:induction false} CompareFlip(a: Key, b: Key)
    ensures Compare(a, b) == -Compare(b, a)
  {
    if a != [] && b != [] && a[0] == b[0] { CompareFlip(a[1..], b[1..]); }
  }

  lemma SortedTail(s: seq<Entry>)
    requires Sorted(s) && s != []
    ensures Sorted(s[1..]) && forall e :: e in s[1..] ==> Less(s[0].0, e.0)
  {
    hide Less;
    forall e | e in s[1..] ensures Less(s[0].0, e.0) { var i :| 1 <= i < |s| && s[i] == e; }
  }

  /** What the next step leaves: a sorted rest beyond the entry, and no entry of the range is lost. */
  lemma {:induction false} NextExact(rest: seq<Entry>, lo: Option<Key>, hi: Option<Key>, e: Entry)
    requires Sorted(rest)
    ensures var n := NextOf(rest, lo, hi);
            && (e in rest && InRange(e.0, lo, hi) <==>
                  n.Some? && InRange(e.0, lo, hi) && (e == n.value.0 || e in n.value.1))
            && (n.Some? ==> Sorted(n.value.1) && n.value.0 in rest && InRange(n.value.0.0, lo, hi))
            && (n.Some? ==> forall x :: x in n.value.1 ==> x in rest && Less(n.value.0.0, x.0))
  {
    hide Compare, Sorted;
    if rest != [] {
      SortedTail(rest);
      assert rest == [rest[0]] + rest[1..];
      if hi.Some? { CompareFlip(rest[0].0, hi.value); }
      if hi.Some? && Compare(rest[0].0, hi.value) > 0 {
        if e in rest[1..] { LessTransitive(hi.value, rest[0].0, e.0); }
      } else if lo.Some? && Compare(rest[0].0, lo.value) < 0 {
        NextExact(rest[1..], lo, hi, e);
      }
    }
  }

  /** Stepping to the end yields exactly the entries in the range, in strictly ascending order. */
  lemma {:induction false} DrainExact(rest: seq<Entry>, lo: Option<Key>, hi: Option<Key>, e: Entry)
    requires Sorted(rest)
    ensures e in Drain(rest, lo, hi) <==> e in rest && InRange(e.0, lo, hi)
    ensures Sorted(Drain(rest, lo, hi))
    decreases |rest|
  {
    hide NextOf, Compare, Less, InRange;
    NextShorter(rest, lo, hi);
    NextExact(rest, lo, hi, e);
    var n := NextOf(rest, lo, hi);
    if n.Some? {
      DrainExact(n.value.1, lo, hi, e);
      var tail := Drain(n.value.1, lo, hi);
      forall x | x in tail ensures Less(n.value.0.0, x.0) { DrainExact(n.value.1, lo, hi, x); }
      SortedConcat([n.value.0], tail);
    }
  }

  /** A full or bounded iteration over the index: each stored key of the range once, ascending. */
  lemma RangeScan(t: Trie, lo: Option<Key>, hi: Option<Key>, k: Key, v: Val)
    requires WF(t, [])
    ensures (k, v) in Drain(Walk(t), lo, hi) <==> Has(t, k, v) && InRange(k, lo, hi)
    ensures Sorted(Drain(Walk(t), lo, hi))
  {
    hide WF, Walk, Drain, Sorted, InRange;
    WalkSorted(t, []);
    WalkHas(t, k, v);
    DrainExact(Walk(t), lo, hi, (k, v));
  }

  /** An iteration started at a prefix: each stored key with that prefix once, ascending. */
  lemma PrefixScan(t: Trie, q: Key, k: Key, v: Val)
    requires WF(t, [])
    ensures (k, v) in Drain(Started(PrefixNode(t, q, 0)), None, None) <==> Has(t, k, v) && q <= k
    ensures Sorted(Drain(Started(PrefixNode(t, q, 0)), None, None))
  {
    hide WF, Walk, Drain, Sorted, PrefixNode;
    PrefixNodeExact(t, q, [], k, v);
    var s := PrefixNode(t, q, 0);
    if s.Some? {
      WalkHas(s.value, k, v);
      var pre := PrefixNodeWF(t, q, []);
      WalkSorted(s.value, pre);
    } else {
      NothingSorted();
    }
    DrainExact(Started(s), None, None, (k, v));
  }

  lemma NothingSorted()
    ensures Sorted([])
  {
  }

  lemma {:induction false} PrefixNodeWF(t: Trie, q: Key, pre: Key) returns (spre: Key)
    requires WF(t, pre) && |pre| <= |q| && PrefixNode(t, q, |pre|).Some?
    ensures WF(PrefixNode(t, q, |pre|).value, spre)
  {
    hide Agree;
    spre := pre;
    if t.Inner? && |pre| + |t.prefix| < |q| {
      var b := q[|pre| + |t.prefix|];
      spre := PrefixNodeWF(t.kids[b], q, ChildPath(pre, t.prefix, b));
    }
  }

  /** The walk an iteration starts with. */
  ghost function Started(t: Option<Trie>): seq<Entry> {
    if t.None? then [] else Walk(t.value)
  }

  // ---------- The stack of frames ----------

  datatype Frame = Frame(node: Ptr, idx: nat)

  /** The walk that a frame has still to give: all of its node, from child `idx` on. */
  ghost function FrameWalk(t: Trie, idx: nat): seq<Entry> {
    if t.Leaf? then Walk(t)
    else
      EdgesAre(t.kids, 0);
      WalkKids(t, if idx <= |Edges(t.kids)| then Edges(t.kids)[idx..] else [])
  }

  /** The walk that a whole stack has still to give, the last frame first. */
  ghost function Pending(fs: seq<Frame>, ts: seq<Trie>): seq<Entry>
    requires |fs| == |ts|
  {
    if fs == [] then []
    else FrameWalk(ts[|ts| - 1], fs[|fs| - 1].idx) + Pending(fs[..|fs| - 1], ts[..|ts| - 1])
  }

  /** Every frame stands on a node of memory with a known subtree. */
  ghost predicate Stacked(m: Mem, fs: seq<Frame>, ts: seq<Trie>) {
    |fs| == |ts| && forall i :: 0 <= i < |fs| ==> At(m, fs[i].node, ts[i])
  }

  lemma PendingPush(fs: seq<Frame>, ts: seq<Trie>, f: Frame, t: Trie)
    requires |fs| == |ts|
    ensures Pending(fs + [f], ts + [t]) == FrameWalk(t, f.idx) + Pending(fs, ts)
  {
    hide FrameWalk;
    assert (fs + [f])[..|fs|] == fs && (ts + [t])[..|ts|] == ts;
  }

  lemma FreshFrame(t: Trie)
    ensures FrameWalk(t, 0) == Walk(t)
  {
    if t.Inner? { assert Edges(t.kids)[0..] == Edges(t.kids); }
  }

  /** Taking the next child off a frame: its walk comes first, the rest of the frame after it. */
  lemma FrameStep(t: Trie, idx: nat)
    requires t.Inner? && idx < |Edges(t.kids)|
    ensures Edges(t.kids)[idx] in t.kids
    ensures FrameWalk(t, idx) == Walk(t.kids[Edges(t.kids)[idx]]) + FrameWalk(t, idx + 1)
  {
    hide Edges, Walk;
    EdgesAre(t.kids, 0) by { hide *; }
    EdgesIn(t.kids);
    var es := Edges(t.kids)[idx..];
    assert es[1..] == Edges(t.kids)[idx + 1..];
  }

  lemma EdgesIn(kids: map<Byte, Trie>)
    ensures forall e :: e in Edges(kids) ==> e in kids
  {
    EdgesAre(kids, 0);
  }

  lemma FrameEnd(t: Trie, idx: nat)
    requires t.Inner? && idx >= |Edges(t.kids)|
    ensures FrameWalk(t, idx) == []
  {
  }

  // ---------- Why an iteration ends ----------

  /** The steps it takes to walk a tree: one to drop its frame, and two for each child below. */
  ghost function TreeLoad(t: Trie): nat
    decreases t, 1, 0
  {
    if t.Leaf? then 1
    else
      EdgesIn(t.kids);
      1 + KidsLoad(t, Edges(t.kids))
  }

  ghost function KidsLoad(t: Trie, es: seq<Byte>): nat
    requires t.Inner? && forall e :: e in es ==> e in t.kids
    decreases t, 0, |es|
  {
    if es == [] then 0 else 1 + TreeLoad(t.kids[es[0]]) + KidsLoad(t, es[1..])
  }

  ghost function FrameLoad(t: Trie, idx: nat): nat {
    if t.Leaf? then 1
    else
      EdgesIn(t.kids);
      1 + KidsLoad(t, if idx <= |Edges(t.kids)| then Edges(t.kids)[idx..] else [])
  }

  ghost function Load(fs: seq<Frame>, ts: seq<Trie>): nat
    requires |fs| == |ts|
  {
    if fs == [] then 0
    else FrameLoad(ts[|ts| - 1], fs[|fs| - 1].idx) + Load(fs[..|fs| - 1], ts[..|ts| - 1])
  }

  lemma LoadPush(fs: seq<Frame>, ts: seq<Trie>, f: Frame, t: Trie)
    requires |fs| == |ts|
    ensures Load(fs + [f], ts + [t]) == FrameLoad(t, f.idx) + Load(fs, ts)
  {
    hide FrameLoad;
    assert (fs + [f])[..|fs|] == fs && (ts + [t])[..|ts|] == ts;
  }

  lemma LoadStep(t: Trie, idx: nat)
    requires t.Inner? && idx < |Edges(t.kids)|
    ensures Edges(t.kids)[idx] in t.kids
    ensures FrameLoad(t, idx) == FrameLoad(t.kids[Edges(t.kids)[idx]], 0) + 1 + FrameLoad(t, idx + 1)
  {
    hide Edges;
    EdgesIn(t.kids);
    var es := Edges(t.kids)[idx..];
    assert es[1..] == Edges(t.kids)[idx + 1..];
    FreshLoad(t.kids[Edges(t.kids)[idx]]);
  }

  lemma FreshLoad(t: Trie)
    ensures FrameLoad(t, 0) == TreeLoad(t)
  {
    if t.Inner? { assert Edges(t.kids)[0..] == Edges(t.kids); }
  }

  lemma OneFrame(node: Ptr, t: Trie)
    ensures Pending([Frame(node, 0)], [t]) == Walk(t)
  {
    hide Walk;
    FreshFrame(t);
    PendingPush([], [], Frame(node, 0), t);
    assert [] + [Frame(node, 0)] == [Frame(node, 0)] && [] + [t] == [t];
  }

  // ---------- The three moves on a stack ----------

  /** The next child of the top frame is put on top of it. */
  lemma MoveDown(m: Mem, fs: seq<Frame>, ts: seq<Trie>, node: Ptr, idx: nat, t: Trie, child: Ptr)
    requires Stacked(m, fs, ts) && At(m, node, t) && t.Inner? && Shape(m[node]) && node in m && idx < |Edges(t.kids)|
    requires Edges(t.kids)[idx] in t.kids && child == Kid(m, node, Edges(t.kids)[idx])
    ensures var c := t.kids[Edges(t.kids)[idx]];
            var fs2, ts2 := fs + [Frame(node, idx + 1)] + [Frame(child, 0)], ts + [t] + [c];
            && Stacked(m, fs + [Frame(node, idx)], ts + [t]) && Stacked(m, fs2, ts2)
            && Pending(fs2, ts2) == Pending(fs + [Frame(node, idx)], ts + [t])
            && Load(fs2, ts2) < Load(fs + [Frame(node, idx)], ts + [t])
  {
    hide Pending, Load, FrameWalk, FrameLoad, Edges, Walk, Kid;
    var c := t.kids[Edges(t.kids)[idx]];
    FootKidAt(m, node, t, Edges(t.kids)[idx]);
    FrameStep(t, idx);
    LoadStep(t, idx);
    FreshFrame(c);
    PendingPush(fs, ts, Frame(node, idx), t);
    PendingPush(fs, ts, Frame(node, idx + 1), t);
    PendingPush(fs + [Frame(node, idx + 1)], ts + [t], Frame(child, 0), c);
    LoadPush(fs, ts, Frame(node, idx), t);
    LoadPush(fs, ts, Frame(node, idx + 1), t);
    LoadPush(fs + [Frame(node, idx + 1)], ts + [t], Frame(child, 0), c);
    StackedPush(m, fs, ts, Frame(node, idx), t);
    StackedPush(m, fs, ts, Frame(node, idx + 1), t);
    StackedPush(m, fs + [Frame(node, idx + 1)], ts + [t], Frame(child, 0), c);
    assert Walk(c) + FrameWalk(t, idx + 1) + Pending(fs, ts) == Walk(c) + (FrameWalk(t, idx + 1) + Pending(fs, ts));
  }

  lemma FootKidAt(m: Mem, p: Ptr, t: Trie, b: Byte)
    requires At(m, p, t) && t.Inner? && b in t.kids
    ensures At(m, Kid(m, p, b), t.kids[b])
  {
    hide InnerAt, Kid;
  }

  lemma StackedPush(m: Mem, fs: seq<Frame>, ts: seq<Trie>, f: Frame, t: Trie)
    requires Stacked(m, fs, ts) && At(m, f.node, t)
    ensures Stacked(m, fs + [f], ts + [t])
  {
    hide At;
  }

  /** An exhausted frame, or a leaf frame whose entry is taken, is dropped. */
  lemma MoveUp(m: Mem, fs: seq<Frame>, ts: seq<Trie>)
    requires Stacked(m, fs, ts) && fs != []
    ensures var n := |fs| - 1;
            && At(m, fs[n].node, ts[n]) && Stacked(m, fs[..n], ts[..n])
            && Pending(fs, ts) == FrameWalk(ts[n], fs[n].idx) + Pending(fs[..n], ts[..n])
            && Load(fs[..n], ts[..n]) < Load(fs, ts)
            && fs == fs[..n] + [fs[n]] && ts == ts[..n] + [ts[n]]
  {
    hide At, FrameWalk, Pending, Load, KidsLoad, Edges;
    var n := |fs| - 1;
    assert fs == fs[..n] + [fs[n]] && ts == ts[..n] + [ts[n]];
    PendingPush(fs[..n], ts[..n], fs[n], ts[n]);
    LoadPush(fs[..n], ts[..n], fs[n], ts[n]);
  }

  /** Byte by byte from the front, the shorter key first. */
  method CompareKeys(a: Key, b: Key) returns (r: int)
    ensures r == Compare(a, b)
  {
    hide Compare;
    var min := if |b| < |a| then |b| else |a|;
    var i := 0;
    while i < min
      invariant i <= min && a[..i] == b[..i]
    {
      CompareAt(a, b, i);
      if a[i] < b[i] { CompareFirst(a[i..], b[i..]); return -1; }
      if a[i] > b[i] { CompareFirst(a[i..], b[i..]); return 1; }
      i := i + 1;
    }
    CompareAt(a, b, min);
    CompareFirst(a[min..], b[min..]);
    r := if |a| < |b| then -1 else if |a| > |b| then 1 else 0;
  }

  lemma CompareFirst(a: Key, b: Key)
    ensures a != [] && b != [] && a[0] < b[0] ==> Compare(a, b) == -1
    ensures a != [] && b != [] && a[0] > b[0] ==> Compare(a, b) == 1
    ensures a == [] || b == [] ==> Compare(a, b) == if |a| < |b| then -1 else if |a| > |b| then 1 else 0
  {
  }

  method StartsWith(k: Key, q: Key) returns (r: bool)
    ensures r <==> q <= k
  {
    if |k| < |q| {
      return false;
    }
    var i := 0;
    while i < |q|
      invariant i <= |q| && q[..i] == k[..i]
    {
      if k[i] != q[i] {
        return false;
      }
      i := i + 1;
    }
    r := true;
  }

  /** The node below which the keys starting with `q` are, or null. */
  method PrefixStart(m: Mem, root: Ptr, q: Key, ghost tree: Option<Trie>) returns (node: Ptr, ghost t: Trie)
    requires AllTidy(m) && match tree case None => root == 0 case Some(t) => At(m, root, t)
    ensures (if tree.None? then None else PrefixNode(tree.value, q, 0)) == if node == 0 then None else Some(t)
    ensures node != 0 ==> At(m, node, t)
  {
    hide At, Kids, Shape, Find, AllTidy, Agree, PrefixNode;
    RootNone(m, root, tree);
    node := root;
    t := if tree.None? then Leaf([], []) else tree.value;
    if |q| == 0 {
      if root != 0 { EmptyPrefix(t); }
      return;
    }
    var depth: nat := 0;
    while node != 0
      invariant depth <= |q|
      invariant node == 0 ==> tree.None? || PrefixNode(tree.value, q, 0) == None
      invariant node != 0 ==> tree.Some? && At(m, node, t) && PrefixNode(t, q, depth) == PrefixNode(tree.value, q, 0)
      decreases node != 0, t
    {
      SpotKind(m, node, t);
      PrefixStep(t, q, depth);
      var n := m[node];
      if n.LeafNode? {
        var starts := StartsWith(n.key, q);
        if !starts { node := 0; }
        return;
      }
      var p := CheckPrefix(n.prefix, q, depth);
      var len := if |q| - depth < |n.prefix| then |q| - depth else |n.prefix|;
      if p != len {
        node := 0;
        return;
      }
      depth := depth + |n.prefix|;
      if depth >= |q| {
        return;
      }
      var b := q[depth];
      var child := FindChild(n, b);
      KidsAre(n, b);
      if child != 0 {
        FootKidAt(m, node, t, b);
        KidIs(m, node, b);
        t := t.kids[b];
      }
      node, depth := child, depth + 1;
    }
  }

  lemma KidIs(m: Mem, p: Ptr, b: Byte)
    requires p in m && Shape(m[p])
    ensures Kid(m, p, b) == Find(m[p], b)
  {
    hide Find, Shape;
  }

  lemma EmptyPrefix(t: Trie)
    ensures PrefixNode(t, [], 0) == Some(t)
  {
  }

  lemma PrefixStep(t: Trie, q: Key, d: nat)
    requires d <= |q|
    ensures t.Leaf? ==> PrefixNode(t, q, d) == if q <= t.key then Some(t) else None
    ensures t.Inner? ==> PrefixNode(t, q, d)
                         == if Agree(t.prefix, q, d) != Min(|t.prefix|, |q| - d) then None
                            else if d + |t.prefix| >= |q| then Some(t)
                            else if q[d + |t.prefix|] in t.kids then PrefixNode(t.kids[q[d + |t.prefix|]], q, d + |t.prefix| + 1)
                            else None
  {
    hide Agree;
  }

  const DEFAULT_STACK_CAP := 64

  class Iter {
    var buf: array<Frame>
    var top: int
    const lo: Option<Key>
    const hi: Option<Key>
    var done: bool
    ghost var trees: seq<Trie>

    ghost predicate Ready()
      reads this
    {
      buf.Length > 0 && -1 <= top < buf.Length
    }

    ghost function Frames(): seq<Frame>
      requires Ready()
      reads this, buf
    {
      buf[..top + 1]
    }

    ghost predicate Valid(m: Mem)
      reads this, buf
    {
      Ready() && Stacked(m, Frames(), trees) && AllTidy(m)
    }

    /** The walk that is still to come. */
    ghost function Rest(m: Mem): seq<Entry>
      requires Valid(m)
      reads this, buf
    {
      if done then [] else Pending(Frames(), trees)
    }

    /** An iterator over the whole index, between two inclusive bounds. */
    constructor CreateRange(m: Mem, root: Ptr, lo: Option<Key>, hi: Option<Key>, ghost tree: Option<Trie>)
      requires AllTidy(m) && match tree case None => root == 0 case Some(t) => At(m, root, t)
      ensures Valid(m) && fresh(buf) && this.lo == lo && this.hi == hi && Rest(m) == Started(tree)
    {
      this.lo, this.hi, top, done, trees := lo, hi, -1, false, [];
      buf := new Frame[DEFAULT_STACK_CAP](_ => Frame(0, 0));
      new;
      RootNone(m, root, tree);
      if root != 0 {
        Push(root, 0, m, tree.value);
        OneFrame(root, tree.value);
      } else {
        done := true;
      }
    }

    /** An iterator over the keys that start with `q`. */
    constructor CreatePrefix(m: Mem, root: Ptr, q: Key, ghost tree: Option<Trie>)
      requires AllTidy(m) && match tree case None => root == 0 case Some(t) => At(m, root, t)
      ensures Valid(m) && fresh(buf) && lo == None && hi == None
      ensures Rest(m) == Started(if tree.None? then None else PrefixNode(tree.value, q, 0))
    {
      lo, hi, top, done, trees := None, None, -1, false, [];
      buf := new Frame[DEFAULT_STACK_CAP](_ => Frame(0, 0));
      new;
      var node;
      ghost var t;
      node, t := PrefixStart(m, root, q, tree);
      if node != 0 {
        Push(node, 0, m, t);
        OneFrame(node, t);
      } else {
        done := true;
      }
    }

    /** A frame on top; a full buffer is first copied into one of twice the size. */
    method Push(node: Ptr, idx: nat, ghost m: Mem, ghost t: Trie)
      requires Valid(m) && At(m, node, t)
      modifies this, buf
      ensures Valid(m) && Frames() == old(Frames()) + [Frame(node, idx)] && trees == old(trees) + [t] && done == old(done)
      ensures buf == old(buf) || fresh(buf)
    {
      hide At;
      var next := top + 1;
      if next >= buf.Length {
        var big := new Frame[buf.Length * 2](_ => Frame(0, 0));
        var i := 0;
        while i < buf.Length
          invariant i <= buf.Length && fresh(big) && big.Length == buf.Length * 2 && buf == old(buf)
          invariant big[..i] == buf[..i] && buf[..] == old(buf[..]) && top == old(top) && trees == old(trees) && done == old(done)
        {
          big[i] := buf[i];
          i := i + 1;
        }
        assert big[..next] == old(Frames());
        buf := big;
      }
      buf[next] := Frame(node, idx);
      top := next;
      trees := trees + [t];
      assert Frames() == old(Frames()) + [Frame(node, idx)];
    }

    /** The leaf on top is taken off. */
    method TakeLeaf(m: Mem) returns (leaf: Ptr)
      requires Valid(m) && !done && top >= 0 && buf[top].node in m && m[buf[top].node].LeafNode?
      modifies this`top, this`trees
      ensures Valid(m) && leaf in m && m[leaf].LeafNode? && old(Rest(m)) == [(m[leaf].key, m[leaf].val)] + Rest(m)
      ensures Load(Frames(), trees) < old(Load(Frames(), trees))
    {
      hide At, FrameWalk, FrameLoad, Pending, Load, Stacked, AllTidy, Walk;
      ghost var fs, ts := Frames(), trees;
      MoveUp(m, fs, ts);
      leaf := buf[top].node;
      ghost var t := ts[|ts| - 1];
      SpotKind(m, leaf, t);
      LeafFrame(t, fs[|fs| - 1].idx);
      top := top - 1;
      trees := trees[..|trees| - 1];
      assert Frames() == fs[..|fs| - 1];
    }

    /** The inner node on top gives its next child, or is taken off when it has none left. */
    method Advance(m: Mem)
      requires Valid(m) && !done && top >= 0 && buf[top].node in m && !m[buf[top].node].LeafNode?
      modifies this, buf
      ensures Valid(m) && !done && Rest(m) == old(Rest(m)) && (buf == old(buf) || fresh(buf))
      ensures Load(Frames(), trees) < old(Load(Frames(), trees))
    {
      hide At, FrameWalk, FrameLoad, Pending, Load, Stacked, AllTidy, Walk, Nth, Edges, Kid;
      ghost var fs, ts := Frames(), trees;
      MoveUp(m, fs, ts);
      var f := buf[top];
      ghost var t := ts[|ts| - 1];
      SpotKind(m, f.node, t);
      NodeTidy(m, f.node);
      var child := NthChild(m[f.node], f.idx);
      if child.None? {
        NoChildLeft(m, f.node, t, f.idx);
        top := top - 1;
        trees := trees[..|trees| - 1];
        assert Frames() == fs[..|fs| - 1];
      } else {
        NextChild(m, f.node, t, f.idx);
        MoveDown(m, fs[..|fs| - 1], ts[..|ts| - 1], f.node, f.idx, t, child.value.0);
        TopAgain(m, fs, ts, f.node, f.idx + 1);
        buf[top] := Frame(f.node, f.idx + 1);
        assert Frames() == fs[..|fs| - 1] + [Frame(f.node, f.idx + 1)];
        Push(child.value.0, 0, m, t.kids[Edges(t.kids)[f.idx]]);
      }
    }

    /** The next leaf of the range in key order, or nothing once and for all. */
    method Next(m: Mem) returns (r: Option<Ptr>)
      requires Valid(m)
      modifies this, buf
      ensures Valid(m) && (buf == old(buf) || fresh(buf))
      ensures match NextOf(old(Rest(m)), lo, hi)
              case None => r.None? && Rest(m) == []
              case Some((e, rest)) => r.Some? && r.value in m && m[r.value] == LeafNode(e.0, e.1) && Rest(m) == rest
    {
      hide At, NextOf, FrameWalk, FrameLoad, Pending, Load, AllTidy, Compare;
      NextNothing(lo, hi);
      if done {
        return None;
      }
      while true
        invariant Valid(m) && !done && (buf == old(buf) || fresh(buf))
        invariant NextOf(Rest(m), lo, hi) == NextOf(old(Rest(m)), lo, hi)
        decreases Load(Frames(), trees)
      {
        if top == -1 {
          NothingPending(Frames(), trees);
          done := true;
          return None;
        }
        TopIs(m, Frames(), trees);
        if m[buf[top].node].LeafNode? {
          var leaf := TakeLeaf(m);
          NextLeaf((m[leaf].key, m[leaf].val), Rest(m), lo, hi);
          var valid := true;
          if lo.Some? {
            var c := CompareKeys(m[leaf].key, lo.value);
            if c < 0 { valid := false; }
          }
          if hi.Some? {
            var c := CompareKeys(m[leaf].key, hi.value);
            if c > 0 {
              done := true;
              return None;
            }
          }
          if valid {
            return Some(leaf);
          }
        } else {
          Advance(m);
        }
      }
    }
  }

  lemma TopIs(m: Mem, fs: seq<Frame>, ts: seq<Trie>)
    requires Stacked(m, fs, ts) && fs != []
    ensures fs[|fs| - 1].node in m
  {
    hide InnerAt, Kid;
  }

  lemma NextNothing(lo: Option<Key>, hi: Option<Key>)
    ensures NextOf([], lo, hi) == None
  {
  }

  lemma NothingPending(fs: seq<Frame>, ts: seq<Trie>)
    requires |fs| == |ts| == 0
    ensures Pending(fs, ts) == []
  {
  }

  lemma NodeTidy(m: Mem, p: Ptr)
    requires AllTidy(m) && p in m
    ensures Tidy(m[p]) && Shape(m[p])
  {
    TidyShape(m[p]);
  }

  lemma LeafFrame(t: Trie, idx: nat)
    requires t.Leaf?
    ensures FrameWalk(t, idx) == [(t.key, t.val)]
  {
  }

  lemma NextLeaf(e: Entry, rest: seq<Entry>, lo: Option<Key>, hi: Option<Key>)
    ensures NextOf([e] + rest, lo, hi)
            == if hi.Some? && Compare(e.0, hi.value) > 0 then None
               else if lo.Some? && Compare(e.0, lo.value) < 0 then NextOf(rest, lo, hi) else Some((e, rest))
  {
    hide Compare;
    assert ([e] + rest)[1..] == rest;
  }

  lemma SameEdges(m: Mem, x: Ptr, xt: Trie)
    requires At(m, x, xt) && xt.Inner? && x in m && Shape(m[x])
    ensures Edges(Kids(m[x])) == Edges(xt.kids)
  {
    hide At, Kids, Shape;
    SpotKind(m, x, xt);
    SameKeysEdges(Kids(m[x]), xt.kids, 0);
  }

  lemma {:induction false} SameKeysEdges(a: map<Byte, Ptr>, c: map<Byte, Trie>, b: nat)
    requires a.Keys == c.Keys && b <= 256
    ensures EdgesFrom(a, b) == EdgesFrom(c, b)
    decreases 256 - b
  {
    if b < 256 { SameKeysEdges(a, c, b + 1); }
  }

  lemma NoChildLeft(m: Mem, x: Ptr, xt: Trie, idx: nat)
    requires At(m, x, xt) && xt.Inner? && x in m && Shape(m[x]) && Nth(m[x], idx) == None
    ensures FrameWalk(xt, idx) == []
  {
    hide At, Kids, Shape, Edges, FrameWalk;
    SameEdges(m, x, xt);
    FrameEnd(xt, idx);
  }

  lemma NextChild(m: Mem, x: Ptr, xt: Trie, idx: nat)
    requires At(m, x, xt) && xt.Inner? && x in m && Shape(m[x]) && Nth(m[x], idx).Some?
    ensures idx < |Edges(xt.kids)| && Edges(xt.kids)[idx] in xt.kids
    ensures Nth(m[x], idx).value.0 == Kid(m, x, Edges(xt.kids)[idx])
    ensures At(m, Kid(m, x, Edges(xt.kids)[idx]), xt.kids[Edges(xt.kids)[idx]])
  {
    hide At, Kids, Shape, Edges, Find;
    SameEdges(m, x, xt);
    EdgesIn(xt.kids);
    var b := Edges(xt.kids)[idx];
    EdgesAre(Kids(m[x]), 0) by { hide *; }
    KidsAre(m[x], b);
    SpotKind(m, x, xt);
    FootKidAt(m, x, xt, b);
  }

  lemma TopAgain(m: Mem, fs: seq<Frame>, ts: seq<Trie>, node: Ptr, idx: nat)
    requires Stacked(m, fs, ts) && fs != [] && node == fs[|fs| - 1].node
    ensures Stacked(m, fs[..|fs| - 1] + [Frame(node, idx)], ts)
  {
    hide At;
  }
}
