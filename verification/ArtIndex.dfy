/** The index itself: a root pointer into shared memory, with search, insert and delete as the
    write lock lets them run. Every write that readers can see is recorded in `trace`. */
module ArtIndex {
  import opened Options
  import opened Bytes
  import opened ArtTrie
  import opened ArtTrieDelete
  import opened ArtLimits
  import opened ArtTrieTheory
  import opened ArtNode
  import opened ArtStore
  import opened ArtStep
  import opened ArtBuild
  import opened ArtDescent
  import opened ArtRemoval

  /** The result code of a delete that finds nothing. */
  const ERR_ART_KEY_NOT_FOUND := 100

  /** Every node is as an operation leaves it. */
  ghost predicate AllTidy(m: Mem) {
    forall p :: p in m ==> Tidy(m[p])
  }

  /** A history of the shared memory in which every write was one that readers can rely on. */
  ghost predicate Run(h: seq<Store>) {
    h != [] && Good(h[0]) && forall i :: 0 <= i < |h| - 1 ==> StepOK(h[i], h[i + 1])
  }

  lemma RunMore(h: seq<Store>, s: Store)
    requires Run(h) && StepOK(h[|h| - 1], s)
    ensures Run(h + [s])
  {
    hide StepOK, Good;
    var g := h + [s];
    forall i | 0 <= i < |g| - 1 ensures StepOK(g[i], g[i + 1]) {
      if i < |h| - 1 { assert g[i] == h[i] && g[i + 1] == h[i + 1]; } else { assert g[i] == h[|h| - 1] && g[i + 1] == s; }
    }
  }

  /** The state has the map that the first `n` operations leave. */
  ghost predicate ShownAt(s: Store, ops: seq<Op>, n: nat) {
    n <= |ops| && Maps(s.tree, RunMap(ops[..n]))
  }

  /** Which operations have written, and how many of them each recorded state shows: ever more, and all in the end. */
  ghost predicate Shown(h: seq<Store>, ops: seq<Op>, shows: seq<nat>) {
    && |shows| == |h| && h != [] && shows[|h| - 1] == |ops|
    && (forall i :: 0 <= i < |h| ==> ShownAt(h[i], ops, shows[i]))
    && forall i, j :: 0 <= i <= j < |h| ==> shows[i] <= shows[j]
  }

  /** The first state after one more operation. */
  lemma ShownMore(h: seq<Store>, ops: seq<Op>, shows: seq<nat>, op: Op, s: Store)
    requires Shown(h, ops, shows) && Maps(s.tree, ApplyMap(RunMap(ops), op))
    ensures Shown(h + [s], ops + [op], shows + [|ops| + 1]) && RunMap(ops + [op]) == ApplyMap(RunMap(ops), op)
  {
    hide ShownAt, Maps, ApplyMap;
    var g, more, counts := h + [s], ops + [op], shows + [|ops| + 1];
    OneMoreOp(ops, op, s);
    forall i | 0 <= i < |g| ensures ShownAt(g[i], more, counts[i]) {
      if i < |h| { ShownStill(h[i], ops, shows[i], op); }
    }
    assert forall i :: 0 <= i < |h| ==> shows[i] <= shows[|h| - 1];
  }

  lemma OneMoreOp(ops: seq<Op>, op: Op, s: Store)
    requires Maps(s.tree, ApplyMap(RunMap(ops), op))
    ensures RunMap(ops + [op]) == ApplyMap(RunMap(ops), op) && ShownAt(s, ops + [op], |ops| + 1)
  {
    hide Maps, ApplyMap;
    assert (ops + [op])[..|ops|] == ops && (ops + [op])[..|ops| + 1] == ops + [op];
  }

  lemma ShownStill(s: Store, ops: seq<Op>, n: nat, op: Op)
    requires ShownAt(s, ops, n)
    ensures ShownAt(s, ops + [op], n)
  {
    hide Maps, RunMap;
    assert (ops + [op])[..n] == ops[..n];
  }

  /** A further state of the same operation. */
  lemma ShownAgain(h: seq<Store>, ops: seq<Op>, shows: seq<nat>, s: Store)
    requires Shown(h, ops, shows) && s.tree == h[|h| - 1].tree
    ensures Shown(h + [s], ops, shows + [|ops|])
  {
    hide Maps;
    assert ShownAt(h[|h| - 1], ops, |ops|);
  }

  /** Everything recorded since shows all operations. */
  ghost predicate AllSince(before: seq<nat>, shows: seq<nat>, n: nat) {
    before <= shows && forall i :: |before| <= i < |shows| ==> shows[i] == n
  }

  // ---------- Scans that do not change anything ----------

  /** How many bytes of a node's prefix match the key from `d` on; negative when the key ended before `d`. */
  method CheckPrefix(prefix: Key, k: Key, d: nat) returns (r: int)
    ensures d <= |k| ==> r == Agree(prefix, k, d)
    ensures d > |k| ==> r == |k| - d
  {
    var max := |prefix|;
    if d + max > |k| { max := |k| - d; }
    r := 0;
    while r < max
      invariant d <= |k| ==> 0 <= r <= max && Agree(prefix, k, d) == r + Common(prefix, r, k, d + r)
      invariant d > |k| ==> r == 0
      decreases max - r
    {
      if prefix[r] != k[d + r] {
        return;
      }
      r := r + 1;
    }
    r := max;
  }

  /** How long two keys agree from `d` on. */
  method CommonFrom(a: Key, k: Key, d: nat) returns (p: nat)
    requires d <= |a| && d <= |k|
    ensures p == Common(a, d, k, d)
  {
    var max := if |a| - d < |k| - d then |a| - d else |k| - d;
    p := 0;
    while p < max && a[d + p] == k[d + p]
      invariant p <= max && Common(a, d, k, d) == p + Common(a, d + p, k, d + p)
    {
      p := p + 1;
    }
  }

  /** The other child of a Node4 with two children, found by its pointer. */
  method OtherChild(n: Node, p: Ptr, ghost b: Byte) returns (q: Ptr, c: Byte)
    requires Tidy(n) && n.Node4? && n.num == 2 && Find(n, b) == p != 0
    requires forall e: Byte :: e != b ==> Find(n, e) != p
    ensures q != 0 && c != b && Find(n, c) == q
  {
    hide Kids, KeyAt, Tidy;
    TwoSlots(n, b);
    q, c := 0, 0;
    var i := 0;
    while i < 4
      invariant i <= 4
      invariant forall j :: 0 <= j < i && n.slots[j] != 0 && n.slots[j] != p ==> q != 0
      invariant q != 0 ==> q != p && exists j :: 0 <= j < 2 && n.slots[j] == q && n.keys[j] == c
    {
      if n.slots[i] != 0 && n.slots[i] != p {
        q, c := n.slots[i], n.keys[i];
      }
      i := i + 1;
    }
    var j :| 0 <= j < 2 && n.slots[j] == q && n.keys[j] == c;
  }

  lemma TwoSlots(n: Node, b: Byte)
    requires Tidy(n) && n.Node4? && n.num == 2 && Find(n, b) != 0
    requires forall e: Byte :: e != b ==> Find(n, e) != Find(n, b)
    ensures |n.keys| == |n.slots| == 4 && forall j :: 0 <= j < 4 ==> (n.slots[j] != 0 <==> j < 2)
    ensures Find(n, n.keys[0]) == n.slots[0] && Find(n, n.keys[1]) == n.slots[1]
    ensures n.slots[0] != Find(n, b) || n.slots[1] != Find(n, b)
  {
    hide Kids;
    SmallFindAt(n.num, n.keys, n.slots, n.keys[0]);
    SmallFindAt(n.num, n.keys, n.slots, n.keys[1]);
  }

  /** The prefix bytes a collapse writes into its copy of the child: the parent's bytes, then the edge byte
      and the child's bytes as far as byte ten; what is beyond keeps the copy's own bytes, and behind its header
      a reader finds the bytes `body` of the copy's keys or index. */
  method MergePrefix(p1: Key, kb: Byte, p2: Key, body: Key) returns (r: Key)
    ensures r == Merged(p1, kb, p2, body)
  {
    r := seq(|p1| + 1 + |p2|, j requires 0 <= j => Left(p2, body, j));
    var i := 0;
    while i < |p1|
      invariant i <= |p1| && |r| == |p1| + 1 + |p2|
      invariant forall j :: 0 <= j < |r| ==> r[j] == if j < i then p1[j] else Left(p2, body, j)
    {
      r := r[i := p1[i]];
      i := i + 1;
    }
    if |p1| < COLLAPSE_BYTES {
      r := r[|p1| := kb];
    }
    i := 0;
    while i < |p2|
      invariant i <= |p2| && |r| == |p1| + 1 + |p2|
      invariant forall j :: 0 <= j < |p1| + 1 + i ==> r[j] == Merged(p1, kb, p2, body)[j]
      invariant forall j :: |p1| + 1 + i <= j < |r| ==> r[j] == Left(p2, body, j)
    {
      if |p1| + 1 + i < COLLAPSE_BYTES {
        r := r[|p1| + 1 + i := p2[i]];
      }
      i := i + 1;
    }
  }

  class Art {
    var mem: Mem
    var root: Ptr
    var next: Ptr
    ghost var tree: Option<Trie>
    ghost var contents: map<Key, Val>
    ghost var trace: seq<Store>
    ghost var ops: seq<Op>
    ghost var shows: seq<nat>

    ghost function Now(): Store
      reads this
    {
      Store(mem, root, tree)
    }

    /** Memory holds the tree `tree`, whatever its paths spell. */
    ghost predicate Formed()
      reads this
    {
      && next > 0 && 0 !in mem && (forall p :: p in mem ==> p < next)
      && match tree
         case None => root == 0
         case Some(t) => At(mem, root, t) && Apart(mem, root, t)
    }

    /** Readers get the right answers: the tree's paths spell its keys, it stores the contents, every write was one
        that readers can rely on, and every state they could meet shows a map that was the contents. */
    ghost predicate Readable()
      reads this
    {
      Formed() && Good(Now()) && Maps(tree, contents) && Run(trace) && trace[|trace| - 1] == Now()
      && Shown(trace, ops, shows) && contents == RunMap(ops)
    }

    /** Ready for the next insert or delete: every node is also within its limits. */
    ghost predicate Valid()
      reads this
    {
      Readable() && AllTidy(mem) && Holds(tree, contents)
    }

    constructor ()
      ensures Valid() && contents == map[] && trace == [Now()] && ops == [] && shows == [0]
    {
      mem, root, next := map[], 0, 1;
      tree, contents, trace := None, map[], [Store(map[], 0, None)];
      ops, shows := [], [0];
    }

    // ---------- Search ----------

    /** Search answers from the tree that memory holds, and so from the contents while readers get the right
        answers. */
    method Search(k: Key) returns (r: Option<Val>)
      requires Formed()
      ensures r == if tree.None? then None else Lookup(tree.value, k, 0)
      ensures Readable() && ZeroFree(k) ==> r == if k in contents then Some(contents[k]) else None
    {
      hide Shown, Apart, Foot, Shape, Find, Kids, Agree, EdgeByte, Good, Run, Maps, ZeroFree;
      if Readable() && ZeroFree(k) { ContentsAnswer(tree, contents, k); }
      var node, depth: nat := root, 0;
      RootNone(mem, root, tree);
      ghost var t := if tree.None? then Leaf([], []) else tree.value;
      while node != 0
        invariant node == 0 ==> tree.None? || Lookup(tree.value, k, 0) == None
        invariant node != 0 ==> tree.Some? && At(mem, node, t) && Lookup(t, k, depth) == Lookup(tree.value, k, 0)
        decreases node != 0, t
      {
        var n := mem[node];
        if n.LeafNode? {
          return if n.key == k then Some(n.val) else None;
        }
        var p := CheckPrefix(n.prefix, k, depth);
        if p != |n.prefix| {
          return None;
        }
        depth := depth + |n.prefix|;
        var b := EdgeByte(k, depth);
        node := FindChild(n, b);
        depth := depth + 1;
        KidsAre(n, b);
        if node != 0 { t := t.kids[b]; }
      }
      return None;
    }

    // ---------- The shared parts of insert and delete ----------

    /** A new node, which no reader can reach yet. */
    method New(n: Node) returns (p: Ptr)
      requires next > 0 && (forall p :: p in mem ==> p < next)
      modifies this`mem, this`next
      ensures p == old(next) && p !in old(mem) && mem == old(mem)[p := n] && next == p + 1
    {
      p := next;
      mem := mem[p := n];
      next := next + 1;
    }

    /** The compare-and-swap that publishes: on the root, or on the parent's slot. Under the write lock
        it finds what the descent found, so the arms that start over are never taken. */
    method Swap(par: Ptr, b: Byte, was: Ptr, q: Ptr, ghost s: Store, ghost k: Key, ghost z: Spot) returns (ok: bool)
      requires Good(s) && OnPath(s, k, z) && z.node == was && z.par == par && (par != 0 ==> z.b == b)
      requires root == s.root && q != 0 && (forall y :: y in s.mem ==> y in mem && mem[y] == s.mem[y]) && (forall p :: p in s.mem ==> Tidy(mem[p]))
      modifies this`mem, this`root
      ensures ok && Swung(s, mem, root, z, q) && (old(AllTidy(mem)) ==> AllTidy(mem)) && mem.Keys == old(mem).Keys
      ensures forall y :: y in old(mem) && y !in s.mem && y != 0 ==> mem[y] == old(mem)[y]
    {
      hide Good, OnPath, Shape, Find, Tidy, SetChild, AllTidy, At, Foot, Through, WF, Apart, Reach;
      SpotIs(s, k, z);
      ok := false;
      if par == 0 {
        SpotRoot(s, k, z);
        if root == was {
          root := q;
          ok := true;
        }
      } else {
        ParentIs(s, k, z);
        var n := CasChild(mem[par], b, was, q);
        if n.Some? {
          SetChildTidy(mem[par], b, q);
          TidyPut(mem, par, n.value);
          mem := mem[par := n.value];
          ok := true;
        }
      }
    }

    /** The proof's bookkeeping after an insert has published. */
    ghost method Inserted(s: Store, k: Key, v: Val, z: Spot, q: Ptr)
      requires Good(s) && ZeroFree(k) && OnPath(s, k, z) && Swung(s, mem, root, z, q) && tree == s.tree
      requires WF(z.nt, z.npre) && Through(z.npre, k) && Built(s.mem, mem, z.node, z.nt, z.npre, q, Ins(z.nt, k, v, z.npre))
      requires next > 0 && 0 !in mem && (forall p :: p in mem ==> p < next) && (OpFits(tree, Op.Insert(k, v)) ==> AllTidy(mem))
      requires Holds(tree, contents) && OpReads(tree, Op.Insert(k, v), []) && Run(trace) && trace[|trace| - 1] == s
      requires Shown(trace, ops, shows) && contents == RunMap(ops)
      modifies this`tree, this`contents, this`trace, this`ops, this`shows
      ensures Readable() && (OpFits(s.tree, Op.Insert(k, v)) ==> Valid())
      ensures Through([], k) && tree == Apply(s.tree, Op.Insert(k, v))
      ensures contents == old(contents)[k := v] && trace == old(trace) + [Now()] && ops == old(ops) + [Op.Insert(k, v)] && shows == old(shows) + [|ops|]
    {
      hide Shown, Good, OnPath, Built, Swung, WF, Through, ZeroFree, Ins, StepOK, AllTidy, Has, Run, TreeWith, At, Apart, Roomy, InsFits, InsReads;
      TreeWithIns(s, k, v, z);
      ghost var s2 := Store(mem, root, Some(Ins(s.tree.value, k, v, [])));
      Publish(s, s2, k, z, q, Ins(z.nt, k, v, z.npre));
      ApplyMaps(s.tree, contents, Op.Insert(k, v), []);
      if OpFits(s.tree, Op.Insert(k, v)) { ApplyKeeps(s.tree, contents, Op.Insert(k, v)); }
      RunMore(trace, s2);
      StepGood(s, s2);
      ShownMore(trace, ops, shows, Op.Insert(k, v), s2);
      tree, contents, trace := s2.tree, contents[k := v], trace + [s2];
      ops, shows := ops + [Op.Insert(k, v)], shows + [|ops| + 1];
    }

    // ---------- Insert ----------

    method InsertReplace(k: Key, v: Val, node: Ptr, par: Ptr, b: Byte, ghost z: Spot)
      requires Valid() && ZeroFree(k) && OnPath(Now(), k, z) && z.node == node && z.par == par && (par != 0 ==> z.b == b)
      requires z.nt.Leaf? && z.nt.key == k
      modifies this
      ensures Through([], k) && (OpReads(old(tree), Op.Insert(k, v), []) ==>
                Readable() && tree == Apply(old(tree), Op.Insert(k, v)) && contents == old(contents)[k := v]
                && trace == old(trace) + [Now()] && ops == old(ops) + [Op.Insert(k, v)] && shows == old(shows) + [|ops|])
      ensures OpFits(old(tree), Op.Insert(k, v)) ==> OpReads(old(tree), Op.Insert(k, v), []) && Valid()
    {
      hide Shown, Good, OnPath, Built, Swung, WF, Through, ZeroFree, Ins, StepOK, Has, Run, TreeWith, At, Apart, Holds, OpFits, OpReads, Apply;
      ghost var s := Now();
      var l := New(LeafNode(k, v));
      var ok := Swap(par, b, node, l, s, k, z);
      InsertReplaces(s, mem, root, k, v, z, l);
      NoPath(k);
      if OpFits(tree, Op.Insert(k, v)) { OpFitsReads(tree, Op.Insert(k, v), []); }
      if OpReads(tree, Op.Insert(k, v), []) { Inserted(s, k, v, z, l); }
    }

    method InsertSplitLeaf(k: Key, v: Val, node: Ptr, depth: nat, par: Ptr, b: Byte, ghost z: Spot)
      requires Valid() && ZeroFree(k) && OnPath(Now(), k, z) && z.node == node && z.par == par && (par != 0 ==> z.b == b)
      requires z.nt.Leaf? && z.nt.key != k && depth == |z.npre|
      modifies this
      ensures Through([], k) && (OpReads(old(tree), Op.Insert(k, v), []) ==>
                Readable() && tree == Apply(old(tree), Op.Insert(k, v)) && contents == old(contents)[k := v]
                && trace == old(trace) + [Now()] && ops == old(ops) + [Op.Insert(k, v)] && shows == old(shows) + [|ops|])
      ensures OpFits(old(tree), Op.Insert(k, v)) ==> OpReads(old(tree), Op.Insert(k, v), []) && Valid()
    {
      hide Shown, Good, OnPath, Built, Swung, WF, Through, ZeroFree, Ins, StepOK, Has, Run, TreeWith, Apart, Holds, Common, EdgeByte, Leaf4, Kids, Agree, At, Shape, Tidy, OpFits, OpReads, Apply;
      ghost var s := Now();
      SpotIs(s, k, z);
      LeafDepth(z.nt, k, z.npre);
      LeafHere(mem, node, z.nt);
      LeafIs(z.nt, z.npre);
      SplitPath(z.nt.key, k, z.npre);
      var old_key := mem[node].key;
      var p := CommonFrom(old_key, k, depth);
      var l := New(LeafNode(k, v));
      var n := Leaf4(k[depth..depth + p], EdgeByte(old_key, depth + p), node, EdgeByte(k, depth + p), l);
      LeafTidy(k, v);
      TwoKids(k[depth..depth + p], EdgeByte(old_key, depth + p), node, EdgeByte(k, depth + p), l);
      var q := New(n);
      var ok := Swap(par, b, node, q, s, k, z);
      InsertSplitsLeaf(s, mem, root, k, v, z, q, l);
      NoPath(k);
      if OpFits(tree, Op.Insert(k, v)) { OpFitsReads(tree, Op.Insert(k, v), []); }
      if OpReads(tree, Op.Insert(k, v), []) { Inserted(s, k, v, z, q); }
    }

    method InsertSplitPrefix(k: Key, v: Val, node: Ptr, depth: nat, p: nat, par: Ptr, b: Byte, ghost z: Spot)
      requires Valid() && ZeroFree(k) && OnPath(Now(), k, z) && z.node == node && z.par == par && (par != 0 ==> z.b == b)
      requires z.nt.Inner? && depth == |z.npre| <= |k| && p == Agree(z.nt.prefix, k, depth) < |z.nt.prefix|
      modifies this
      ensures Through([], k) && (OpReads(old(tree), Op.Insert(k, v), []) ==>
                Readable() && tree == Apply(old(tree), Op.Insert(k, v)) && contents == old(contents)[k := v]
                && trace == old(trace) + [Now()] && ops == old(ops) + [Op.Insert(k, v)] && shows == old(shows) + [|ops|])
      ensures OpFits(old(tree), Op.Insert(k, v)) ==> OpReads(old(tree), Op.Insert(k, v), []) && Valid()
    {
      hide Shown, Good, OnPath, Built, Swung, WF, Through, ZeroFree, Ins, StepOK, Has, Run, TreeWith, At, Apart, Holds, Agree, EdgeByte, Leaf4, Kids, Shape, Tidy, OpFits, OpReads, Apply;
      ghost var s := Now();
      SpotIs(s, k, z);
      InnerNode(mem, node, z.nt);
      LeavesPrefix(z.nt.prefix, k, z.npre) by { InnerPath(z.nt, z.npre); }
      var n := mem[node];
      var copy := CopyNode(n);
      RenamedTidy(copy, n.prefix[p + 1..]);
      copy := copy.(prefix := n.prefix[p + 1..]);
      var c := New(copy);
      var l := New(LeafNode(k, v));
      LeafTidy(k, v);
      TwoKids(n.prefix[..p], n.prefix[p], c, EdgeByte(k, depth + p), l);
      var q := New(Leaf4(n.prefix[..p], n.prefix[p], c, EdgeByte(k, depth + p), l));
      var ok := Swap(par, b, node, q, s, k, z);
      TidyShape(copy);
      InsertSplitsPrefix(s, mem, root, k, v, z, q, c, l);
      NoPath(k);
      if OpFits(tree, Op.Insert(k, v)) { OpFitsReads(tree, Op.Insert(k, v), []); }
      if OpReads(tree, Op.Insert(k, v), []) { Inserted(s, k, v, z, q); }
    }

    method InsertAddChild(k: Key, v: Val, node: Ptr, depth: nat, e: Byte, par: Ptr, b: Byte, ghost z: Spot)
      requires Valid() && ZeroFree(k) && OnPath(Now(), k, z) && z.node == node && z.par == par && (par != 0 ==> z.b == b)
      requires z.nt.Inner? && |z.npre| <= |k| && Agree(z.nt.prefix, k, |z.npre|) == |z.nt.prefix|
      requires depth == |z.npre| + |z.nt.prefix| && e == EdgeByte(k, depth) && e !in z.nt.kids
      requires OpReads(tree, Op.Insert(k, v), []) && (OpFits(tree, Op.Insert(k, v)) ==> |z.nt.kids| < MOST_CHILDREN)
      modifies this
      ensures Through([], k) && (OpReads(old(tree), Op.Insert(k, v), []) ==>
                Readable() && tree == Apply(old(tree), Op.Insert(k, v)) && contents == old(contents)[k := v]
                && trace == old(trace) + [Now()] && ops == old(ops) + [Op.Insert(k, v)] && shows == old(shows) + [|ops|])
      ensures OpFits(old(tree), Op.Insert(k, v)) ==> OpReads(old(tree), Op.Insert(k, v), []) && Valid()
    {
      hide Shown, Good, OnPath, Built, Swung, WF, Through, ZeroFree, Ins, StepOK, Has, Run, TreeWith, At, Apart, Holds, Agree, EdgeByte, Kids, Shape, Tidy, Find, OpFits, OpReads, Apply;
      ghost var s := Now();
      SpotIs(s, k, z);
      InnerNode(mem, node, z.nt);
      var n := mem[node];
      TidyShape(n);
      KidsAre(n, e);
      CountKids(n, z.nt);
      LeafTidy(k, v);
      var l := New(LeafNode(k, v));
      var copy := AddChildCopy(n, e, l);
      var q := New(copy);
      var ok := Swap(par, b, node, q, s, k, z);
      InsertAddsChild(s, mem, root, k, v, z, q, l, e);
      NoPath(k);
      if OpFits(tree, Op.Insert(k, v)) { OpFitsReads(tree, Op.Insert(k, v), []); }
      if OpReads(tree, Op.Insert(k, v), []) { Inserted(s, k, v, z, q); }
    }

    method InsertFirst(k: Key, v: Val)
      requires Valid() && ZeroFree(k) && root == 0
      modifies this
      ensures Valid() && Through([], k) && tree == Apply(old(tree), Op.Insert(k, v)) && k !in old(contents)
      ensures OpFits(old(tree), Op.Insert(k, v)) && OpReads(old(tree), Op.Insert(k, v), [])
      ensures contents == old(contents)[k := v] && trace == old(trace) + [Now()] && ops == old(ops) + [Op.Insert(k, v)] && shows == old(shows) + [|ops|]
    {
      hide Shown, WF, ZeroFree, Through, Run, Has, Shape, RunMap, At, Foot, Apart, StepOK;
      NoPath(k);
      RootNone(mem, root, tree);
      LeafTidy(k, v);
      ghost var s := Now();
      var l := New(LeafNode(k, v));
      if root == 0 { root := l; }
      ghost var s2 := Store(mem, root, Some(Leaf(k, v)));
      FirstLeaf(s, s2, k, v);
      ApplyKeeps(tree, contents, Op.Insert(k, v));
      RunMore(trace, s2);
      ShownMore(trace, ops, shows, Op.Insert(k, v), s2);
      tree, contents, trace := s2.tree, contents[k := v], trace + [s2];
      ops, shows := ops + [Op.Insert(k, v)], shows + [|ops| + 1];
    }

    /** Insert or replace: 1 when the key was there, 0 when it is new. Readers find the key, and every other key
        as before, also when a node gets its 256th child, whose count byte then reads 0; the index is ready for
        the next insert or delete when the nodes have room. */
    method Insert(k: Key, v: Val) returns (r: int)
      requires Valid() && ZeroFree(k)
      modifies this
      ensures Through([], k) && (OpReads(old(tree), Op.Insert(k, v), []) ==>
                Readable() && tree == Apply(old(tree), Op.Insert(k, v)) && contents == old(contents)[k := v]
                && trace == old(trace) + [Now()] && ops == old(ops) + [Op.Insert(k, v)] && shows == old(shows) + [|ops|])
      ensures OpFits(old(tree), Op.Insert(k, v)) ==> OpReads(old(tree), Op.Insert(k, v), []) && Valid()
      ensures r == if k in old(contents) then 1 else 0
      ensures k in old(contents) ==> OpFits(old(tree), Op.Insert(k, v))
    {
      hide Shown, Good, OnPath, WF, Through, ZeroFree, Ins, StepOK, Has, Run, At, Apart, Holds, Agree, EdgeByte, Kids, Shape, Tidy, Find, Apply, InsFits, InsReads, Maps;
      if root == 0 {
        InsertFirst(k, v);
        return 0;
      }
      RootNone(mem, root, tree);
      ghost var s := Now();
      var node, par, b, depth: nat := root, 0, 0, 0;
      ghost var z := Spot(root, [], tree.value, 0, [], tree.value, 0);
      AtStart(s, k);
      while true
        invariant Valid() && s == Now() && tree == old(tree) && contents == old(contents) && trace == old(trace) && ops == old(ops) && shows == old(shows)
        invariant OnPath(s, k, z) && z.node == node && z.par == par && (par != 0 ==> z.b == b) && depth == |z.npre|
        invariant OpFits(tree, Op.Insert(k, v)) <==> InsFits(z.nt, k, |z.npre|)
        invariant OpReads(tree, Op.Insert(k, v), []) <==> InsReads(z.nt, k, |z.npre|)
        decreases z.nt
      {
        SpotIs(s, k, z);
        SpotLookup(s, k, z, contents);
        var n := mem[node];
        SpotKind(mem, node, z.nt);
        FitsHere(z.nt, k, depth);
        if n.LeafNode? {
          if n.key == k {
            InsertReplace(k, v, node, par, b, z);
            return 1;
          }
          InsertSplitLeaf(k, v, node, depth, par, b, z);
          return 0;
        }
        InnerPath(z.nt, z.npre);
        PrefixTest(z.nt.prefix, z.npre, k);
        var p := CheckPrefix(n.prefix, k, depth);
        if p != |n.prefix| {
          InsertSplitPrefix(k, v, node, depth, p, par, b, z);
          return 0;
        }
        var e := EdgeByte(k, depth + |n.prefix|);
        TidyShape(n);
        KidsAre(n, e);
        var child := FindChild(n, e);
        if child == 0 {
          InsertAddChild(k, v, node, depth + |n.prefix|, e, par, b, z);
          return 0;
        }
        StepDown(s, k, z, e);
        z := NextSpot(s, z, e, child);
        par, b, node, depth := node, e, child, depth + |n.prefix| + 1;
      }
    }

    // ---------- Delete ----------

    /** The proof's bookkeeping after a delete has published a copy or a collapse. */
    ghost method Deleted(s: Store, k: Key, w: Spot, b: Byte, q: Ptr, body: Key)
      requires Good(s) && ZeroFree(k) && Found(s, k, w, b) && Swung(s, mem, root, w, q) && tree == s.tree
      requires Graft(s.mem, mem, w.node, w.nt, q, Without(w.nt, b, body))
      requires Reads(w.nt, b, body) ==> Built(s.mem, mem, w.node, w.nt, w.npre, q, Without(w.nt, b, body))
      requires next > 0 && 0 !in mem && (forall p :: p in mem ==> p < next) && AllTidy(mem)
      requires Holds(tree, contents) && Run(trace) && trace[|trace| - 1] == s && Shown(trace, ops, shows) && contents == RunMap(ops)
      modifies this`tree, this`contents, this`trace, this`ops, this`shows
      ensures Formed() && Through([], k) && tree == Apply(s.tree, Op.Delete(k), body)
      ensures OpReads(s.tree, Op.Delete(k), body) <==> Reads(w.nt, b, body)
      ensures Reads(w.nt, b, body) ==> Readable() && contents == old(contents) - {k} && trace == old(trace) + [Now()]
      ensures Reads(w.nt, b, body) ==> ops == old(ops) + [Op.Delete(k)] && shows == old(shows) + [|ops|]
      ensures OpFits(s.tree, Op.Delete(k)) <==> Fits(w.nt, b)
      ensures Fits(w.nt, b) ==> Reads(w.nt, b, body) && Valid() && tree == Apply(s.tree, Op.Delete(k))
    {
      hide Shown, Good, Built, Graft, Swung, WF, Through, ZeroFree, StepOK, AllTidy, Has, Run, TreeWith, At, Apart, OnPath, Agree, EdgeByte, DelInner, DelFits, DelReads, Fits, Reads, Without, Ins, InsFits, InsReads, Roomy;
      NoPath(k);
      FoundTree(s, k, w, b, body);
      ghost var s2 := Store(mem, root, Some(DelInner(s.tree.value, k, 0, body)));
      PublishTree(s, mem, root, k, w, q, Without(w.nt, b, body));
      if Fits(w.nt, b) {
        FitsReads(w.nt, b, body);
        ApplyKeeps(s.tree, contents, Op.Delete(k), body);
        BodyFree(s.tree, contents, Op.Delete(k), body);
      }
      if Reads(w.nt, b, body) {
        Publish(s, s2, k, w, q, Without(w.nt, b, body));
        ApplyMaps(s.tree, contents, Op.Delete(k), body);
        RunMore(trace, s2);
        StepGood(s, s2);
        ShownMore(trace, ops, shows, Op.Delete(k), s2);
        contents, trace := contents - {k}, trace + [s2];
        ops, shows := ops + [Op.Delete(k)], shows + [|ops| + 1];
      }
      tree := s2.tree;
    }

    /** The parent is replaced by a copy without the leaf. */
    method DeleteCopy(k: Key, par: Ptr, b: Byte, gpar: Ptr, gb: Byte, ghost w: Spot)
      requires Valid() && ZeroFree(k) && Found(Now(), k, w, b) && w.node == par && w.par == gpar && (gpar != 0 ==> w.b == gb)
      requires par in mem && var n := mem[par]; !n.LeafNode? && (n.Node4? ==> n.num > 2) && (n.Node48? ==> n.num <= 12) && (n.Node256? ==> n.num <= 48)
      modifies this
      ensures Valid() && Through([], k) && tree == Apply(old(tree), Op.Delete(k)) && OpFits(old(tree), Op.Delete(k))
      ensures contents == old(contents) - {k} && trace == old(trace) + [Now()] && ops == old(ops) + [Op.Delete(k)] && shows == old(shows) + [|ops|]
    {
      hide Shown, Good, Built, Graft, Swung, WF, Through, ZeroFree, StepOK, Has, Run, TreeWith, At, Apart, OnPath, Agree, EdgeByte, Holds, Kids, Shape, Find, Without, Fits, Reads, DelInner, DelFits, DelReads, Apply, OpFits, OpReads, Maps;
      ghost var s := Now();
      SpotIs(s, k, w);
      InnerNode(mem, par, w.nt);
      var n := mem[par];
      CountKids(n, w.nt);
      KidsAre(n, b);
      FewChildren(n, w.nt, b);
      var copy := RemoveChildCopy(n, b);
      var q := New(copy.value);
      var ok := Swap(gpar, gb, par, q, s, k, w);
      TidyShape(copy.value);
      DeleteCopies(s, mem, root, k, w, b, q, []);
      BuiltGraft(s.mem, mem, w.node, w.nt, w.npre, q, Without(w.nt, b, []));
      Deleted(s, k, w, b, q, []);
    }

    /** A parent with two children is replaced by the child that is left: by the leaf itself, or by a copy
        of the inner node with the prefixes merged. */
    method DeleteCollapse(k: Key, node: Ptr, par: Ptr, b: Byte, gpar: Ptr, gb: Byte, ghost w: Spot) returns (ghost body: Key)
      requires Valid() && ZeroFree(k) && Found(Now(), k, w, b) && w.node == par && w.par == gpar && (gpar != 0 ==> w.b == gb)
      requires par in mem && mem[par].Node4? && mem[par].num == 2 && node == Kid(mem, par, b)
      modifies this
      ensures Formed() && AllTidy(mem) && Through([], k) && tree == Apply(old(tree), Op.Delete(k), body)
      ensures OpReads(old(tree), Op.Delete(k), body) ==> Readable() && contents == old(contents) - {k} && trace == old(trace) + [Now()] && ops == old(ops) + [Op.Delete(k)] && shows == old(shows) + [|ops|]
      ensures OpFits(old(tree), Op.Delete(k)) ==> OpReads(old(tree), Op.Delete(k), body) && Valid() && tree == Apply(old(tree), Op.Delete(k))
      ensures !OpFits(old(tree), Op.Delete(k)) ==> CollapseBody(old(Now()), k, body)
    {
      hide Shown, Good, Built, Graft, Swung, WF, Through, ZeroFree, StepOK, Has, Run, TreeWith, At, Apart, OnPath, Agree, EdgeByte, Holds, Kids, Shape, Find, Without, Fits, Reads, DelInner, DelFits, DelReads, Apply, OpFits, OpReads, Merged, Tidy, Kid, Behind, Copied, Maps;
      ghost var s := Now();
      SpotIs(s, k, w);
      TwoLeft(mem, par, w.nt, b);
      var other, c := OtherChild(mem[par], node, b);
      OtherIs(mem, par, w.nt, b, c, other);
      var q := other;
      body := [];
      if !mem[other].LeafNode? {
        var copy := CopyNode(mem[other]);
        body := Behind(copy);
        SiblingIs(w.nt.kids, b, c);
        assert CopiedBody(s, w, b, body);
        var prefix := MergePrefix(mem[par].prefix, c, mem[other].prefix, Behind(copy));
        RenamedTidy(copy, prefix);
        copy := copy.(prefix := prefix);
        TidyShape(copy);
        q := New(copy);
        var ok := Swap(gpar, gb, par, q, s, k, w);
        DeleteCollapsesInner(s, mem, root, k, w, b, c, q, body);
      } else {
        var ok := Swap(gpar, gb, par, q, s, k, w);
        DeleteCollapsesLeaf(s, mem, root, k, w, b, c, body);
        BuiltGraft(s.mem, mem, w.node, w.nt, w.npre, q, Without(w.nt, b, body));
      }
      Deleted(s, k, w, b, q, body);
    }

    /** The first write in place: the child slot is swapped to null, and the key is gone for every reader. */
    method DeleteClear(k: Key, node: Ptr, par: Ptr, b: Byte, ghost w: Spot)
      requires Valid() && ZeroFree(k) && Found(Now(), k, w, b) && w.node == par && |w.nt.kids| != 2
      requires par in mem && Shape(mem[par]) && Find(mem[par], b) == node != 0
      modifies this`mem, this`tree, this`contents, this`trace, this`ops, this`shows
      ensures old(tree).Some? && tree == Apply(old(tree), Op.Delete(k)) && mem == old(mem)[par := SetChild(old(mem)[par], b, 0)]
      ensures contents == old(contents) - {k} && trace == old(trace) + [Now()] && ops == old(ops) + [Op.Delete(k)] && shows == old(shows) + [|ops|]
      ensures OpFits(old(tree), Op.Delete(k)) && Good(Now()) && Holds(tree, contents) && Run(trace) && Shown(trace, ops, shows) && contents == RunMap(ops) && Place(Now(), par, w.npre, Inner(w.nt.prefix, w.nt.kids - {b}))
    {
      hide Shown, Good, WF, Through, ZeroFree, StepOK, Has, Run, At, Apart, OnPath, Agree, EdgeByte, Kids, Shape, Find, DelInner, DelFits, DelReads, Place, SetChild, Tidy, TreeWith, Without, Fits, Reads, Loc;
      ghost var s := Now();
      NoPath(k);
      FoundTree(s, k, w, b, []);
      var cas := CasChild(mem[par], b, node, 0);
      if cas.Some? {
        mem := mem[par := cas.value];
      }
      ghost var s2 := Store(mem, root, Some(DelInner(s.tree.value, k, 0, [])));
      DeleteClears(s, s2, k, w, b, []);
      ApplyKeeps(s.tree, contents, Op.Delete(k));
      RunMore(trace, s2);
      StepGood(s, s2);
      ShownMore(trace, ops, shows, Op.Delete(k), s2);
      tree, contents, trace := s2.tree, contents - {k}, trace + [s2];
      ops, shows := ops + [Op.Delete(k)], shows + [|ops| + 1];
    }

    /** A further write in place, which changes no child. */
    method Overwrite(x: Ptr, n: Node, ghost xpre: Key, ghost xt: Trie)
      requires Good(Now()) && Run(trace) && trace[|trace| - 1] == Now() && Place(Now(), x, xpre, xt) && xt.Inner? && x in mem
      requires Shape(mem[x]) && Shape(n) && !mem[x].LeafNode? && !n.LeafNode? && n.prefix == mem[x].prefix
      requires Kids(n) == Kids(mem[x]) && Ages(mem[x], n)
      requires Shown(trace, ops, shows)
      modifies this`mem, this`trace, this`shows
      ensures mem == old(mem)[x := n] && trace == old(trace) + [Now()] && shows == old(shows) + [|ops|]
      ensures Good(Now()) && Run(trace) && Shown(trace, ops, shows) && Place(Now(), x, xpre, xt)
    {
      hide Shown, Good, Run, Place, Shape, Kids, Ages, StepOK;
      ghost var s := Now();
      mem := mem[x := n];
      QuietWrite(s, Now(), x, xpre, xt);
      RunMore(trace, Now());
      StepGood(s, Now());
      ShownAgain(trace, ops, shows, Now());
      trace, shows := trace + [Now()], shows + [|ops|];
    }

    /** A large node loses its leaf in place. A Node48 takes three writes: slot, index entry, count. */
    method DeleteInPlace(k: Key, node: Ptr, par: Ptr, b: Byte, ghost w: Spot)
      requires Valid() && ZeroFree(k) && Found(Now(), k, w, b) && w.node == par && Kid(mem, par, b) == node
      requires par in mem && ((mem[par].Node48? && mem[par].num > 12) || (mem[par].Node256? && mem[par].num > 48))
      modifies this
      ensures Valid() && Through([], k) && tree == Apply(old(tree), Op.Delete(k)) && OpFits(old(tree), Op.Delete(k))
      ensures contents == old(contents) - {k} && old(trace) <= trace && ops == old(ops) + [Op.Delete(k)] && AllSince(old(shows), shows, |ops|)
      ensures |trace| == |old(trace)| + if old(mem)[par].Node48? then 3 else 2
    {
      hide Shown, Good, WF, Through, ZeroFree, StepOK, Has, Run, At, Apart, OnPath, Agree, EdgeByte, Kids, Shape, Find, DelInner, DelFits, Place, SetChild, Tidy, Loc, Maps, Apply, ClearIndex, CountDown, Ages;
      ghost var s := Now();
      ghost var t := Inner(w.nt.prefix, w.nt.kids - {b});
      NoPath(k);
      InPlaceReady(s, k, w, b);
      InPlaceWrites(mem[par], b);
      var big := mem[par].Node48?;
      DeleteClear(k, node, par, b, w);
      if big {
        Overwrite(par, ClearIndex(mem[par], b), w.npre, t);
      }
      Overwrite(par, CountDown(mem[par]), w.npre, t);
      GoodIs(Now());
    }

    /** Remove a key: 0 when it was there, 100 when not. `body` is what lies behind the header of the node that a
        collapse copies. Readers find every other key as before when the prefix that the collapse leaves reads
        right, and the index is ready for the next operation when that prefix fits ten bytes. Every state that readers
        meet from the first write on shows the map without the key; a missing key writes nothing. */
    method Delete(k: Key) returns (r: int, ghost body: Key)
      requires Valid() && ZeroFree(k)
      modifies this
      ensures Formed() && AllTidy(mem) && Through([], k) && tree == Apply(old(tree), Op.Delete(k), body)
      ensures r == if k in old(contents) then 0 else 100
      ensures OpReads(old(tree), Op.Delete(k), body) ==> Readable() && contents == old(contents) - {k} && old(trace) <= trace
      ensures k in old(contents) && OpReads(old(tree), Op.Delete(k), body) ==>
                1 <= |trace| - |old(trace)| <= 3 && ops == old(ops) + [Op.Delete(k)] && AllSince(old(shows), shows, |ops|)
      ensures OpFits(old(tree), Op.Delete(k)) ==> OpReads(old(tree), Op.Delete(k), body) && Valid() && tree == Apply(old(tree), Op.Delete(k))
      ensures !OpFits(old(tree), Op.Delete(k)) ==> CollapseBody(old(Now()), k, body)
      ensures k !in old(contents) ==> Valid() && mem == old(mem) && root == old(root) && contents == old(contents) && trace == old(trace) && ops == old(ops) && shows == old(shows)
    {
      hide Shown, Good, OnPath, WF, Through, ZeroFree, StepOK, Has, Run, At, Apart, Holds, Agree, EdgeByte, Kids, Shape, Tidy, Find, Apply, Found, OpFits, OpReads, CollapseBody;
      NoPath(k);
      RootNone(mem, root, tree);
      body := [];
      ghost var s := Now();
      if root == 0 {
        DeleteMissing(tree, contents, k);
        return ERR_ART_KEY_NOT_FOUND, [];
      }
      SpotKind(mem, root, tree.value);
      if mem[root].LeafNode? {
        r := DeleteRoot(k);
        return;
      }
      var node, par, b, gpar, gb, depth: nat := root, 0, 0, 0, 0, 0;
      ghost var z := Spot(root, [], tree.value, 0, [], tree.value, 0);
      ghost var w := z;
      AtStart(s, k);
      while true
        invariant Valid() && s == Now() && tree == old(tree) && contents == old(contents) && trace == old(trace) && ops == old(ops) && shows == old(shows) && mem == old(mem) && root == old(root)
        invariant OnPath(s, k, z) && z.node == node && z.par == par && (par != 0 ==> z.b == b) && depth == |z.npre|
        invariant par == 0 ==> z.nt.Inner?
        invariant par != 0 ==> OnPath(s, k, w) && w.node == par && w.nt == z.pt && w.npre == z.ppre && w.par == gpar && (gpar != 0 ==> w.b == gb)
        decreases z.nt
      {
        SpotIs(s, k, z);
        SpotLookup(s, k, z, contents);
        var n := mem[node];
        SpotKind(mem, node, z.nt);
        if n.LeafNode? {
          if n.key != k {
            DeleteMissing(tree, contents, k);
            return ERR_ART_KEY_NOT_FOUND, [];
          }
          FoundHere(s, k, z, w);
          body := DeleteLeaf(k, node, par, b, gpar, gb, w);
          r := 0;
          return;
        }
        InnerPath(z.nt, z.npre);
        PrefixTest(z.nt.prefix, z.npre, k);
        var p := CheckPrefix(n.prefix, k, depth);
        if p != |n.prefix| {
          DeleteMissing(tree, contents, k);
          return ERR_ART_KEY_NOT_FOUND, [];
        }
        var e := EdgeByte(k, depth + |n.prefix|);
        TidyShape(n);
        KidsAre(n, e);
        var child := FindChild(n, e);
        if child == 0 {
          DeleteMissing(tree, contents, k);
          return ERR_ART_KEY_NOT_FOUND, [];
        }
        StepDown(s, k, z, e);
        w := z;
        z := NextSpot(s, z, e, child);
        gpar, gb, par, b, node, depth := par, b, node, e, child, depth + |n.prefix| + 1;
      }
    }

    /** A root that is a leaf is swapped to null. */
    method DeleteRoot(k: Key) returns (r: int)
      requires Valid() && ZeroFree(k) && root in mem && mem[root].LeafNode? && tree.Some? && tree.value.Leaf?
      requires mem[root] == LeafNode(tree.value.key, tree.value.val)
      modifies this
      ensures Valid() && Through([], k) && tree == Apply(old(tree), Op.Delete(k)) && OpFits(old(tree), Op.Delete(k)) && OpReads(old(tree), Op.Delete(k), [])
      ensures r == if k in old(contents) then 0 else 100
      ensures contents == old(contents) - {k}
      ensures if k in old(contents) then trace == old(trace) + [Now()] && ops == old(ops) + [Op.Delete(k)] && shows == old(shows) + [|ops|]
              else trace == old(trace) && ops == old(ops) && shows == old(shows) && mem == old(mem) && root == old(root) && contents == old(contents)
    {
      hide Shown, WF, Through, ZeroFree, StepOK, Run, Tidy, At, Apart;
      NoPath(k);
      ghost var s := Now();
      HoldsLookup(tree.value, contents, k);
      if mem[root].key != k {
        DeleteMissing(tree, contents, k);
        return ERR_ART_KEY_NOT_FOUND;
      }
      root := 0;
      ghost var s2 := Store(mem, root, None);
      RootGone(s, s2);
      ApplyKeeps(tree, contents, Op.Delete(k));
      RunMore(trace, s2);
      ShownMore(trace, ops, shows, Op.Delete(k), s2);
      tree, contents, trace := None, contents - {k}, trace + [s2];
      ops, shows := ops + [Op.Delete(k)], shows + [|ops| + 1];
      return 0;
    }

    /** Which of the four ways removes a found leaf: by the kind and the count of its parent. */
    method DeleteLeaf(k: Key, node: Ptr, par: Ptr, b: Byte, gpar: Ptr, gb: Byte, ghost w: Spot) returns (ghost body: Key)
      requires Valid() && ZeroFree(k) && Found(Now(), k, w, b) && w.node == par && w.par == gpar && (gpar != 0 ==> w.b == gb)
      requires Kid(mem, par, b) == node
      modifies this
      ensures Formed() && AllTidy(mem) && Through([], k) && tree == Apply(old(tree), Op.Delete(k), body)
      ensures OpReads(old(tree), Op.Delete(k), body) ==> Readable() && contents == old(contents) - {k} && old(trace) <= trace
      ensures OpReads(old(tree), Op.Delete(k), body) ==>
                1 <= |trace| - |old(trace)| <= 3 && ops == old(ops) + [Op.Delete(k)] && AllSince(old(shows), shows, |ops|)
      ensures OpFits(old(tree), Op.Delete(k)) ==> OpReads(old(tree), Op.Delete(k), body) && Valid() && tree == Apply(old(tree), Op.Delete(k))
      ensures !OpFits(old(tree), Op.Delete(k)) ==> CollapseBody(old(Now()), k, body)
    {
      hide Shown, Good, OnPath, WF, Through, ZeroFree, StepOK, Has, Run, At, Apart, Holds, Agree, EdgeByte, Kids, Shape, Tidy, Find, Apply, Found, OpFits, OpReads, Kid, CollapseBody;
      FoundParent(Now(), k, w, b);
      var n := mem[par];
      TidyCount(n);
      body := [];
      if OpFits(tree, Op.Delete(k)) { OpFitsReads(tree, Op.Delete(k), []); }
      if n.Node256? {
        if n.num <= 48 {
          DeleteCopy(k, par, b, gpar, gb, w);
        } else {
          DeleteInPlace(k, node, par, b, w);
        }
      } else if n.Node48? {
        if n.num <= 12 {
          DeleteCopy(k, par, b, gpar, gb, w);
        } else {
          DeleteInPlace(k, node, par, b, w);
        }
      } else if n.Node16? {
        DeleteCopy(k, par, b, gpar, gb, w);
      } else if n.num == 2 {
        body := DeleteCollapse(k, node, par, b, gpar, gb, w);
      } else {
        AtLeastTwo(n);
        DeleteCopy(k, par, b, gpar, gb, w);
      }
    }
  }

  lemma ContentsAnswer(tree: Option<Trie>, m: map<Key, Val>, k: Key)
    requires Maps(tree, m) && ZeroFree(k)
    ensures (if tree.None? then None else Lookup(tree.value, k, 0)) == if k in m then Some(m[k]) else None
  {
    if tree.Some? { HoldsLookup(tree.value, m, k); }
  }

  lemma TidyPut(m: Mem, p: Ptr, n: Node)
    requires Tidy(n)
    ensures AllTidy(m) ==> AllTidy(m[p := n])
  {
    hide Tidy;
  }

  lemma StepGood(s: Store, s2: Store)
    requires StepOK(s, s2)
    ensures Good(s2)
    ensures match s2.tree case None => s2.root == 0 case Some(t) => At(s2.mem, s2.root, t) && Apart(s2.mem, s2.root, t)
  {
    hide At, Apart, WF;
  }

  /** What a writer sees at a spot: a leaf with its entry, or an inner node with its prefix and edges. */
  lemma SpotKind(m: Mem, x: Ptr, xt: Trie)
    requires At(m, x, xt)
    ensures x in m && m[x].LeafNode? == xt.Leaf?
    ensures xt.Leaf? ==> m[x] == LeafNode(xt.key, xt.val)
    ensures xt.Inner? ==> Shape(m[x]) && m[x].prefix == xt.prefix && Kids(m[x]).Keys == xt.kids.Keys
  {
    hide Shape, Kids;
  }

  /** The answer of a search is decided at any spot on its path. */
  lemma SpotLookup(s: Store, k: Key, z: Spot, m: map<Key, Val>)
    requires Good(s) && ZeroFree(k) && OnPath(s, k, z) && Holds(s.tree, m)
    ensures Lookup(z.nt, k, |z.npre|) == if k in m then Some(m[k]) else None
  {
    hide At, Apart, WF, Loc, Through, ByEdge, Has, ZeroFree, Lookup;
    NoPath(k);
    HoldsLookup(s.tree.value, m, k);
    LookupAt(s.mem, s.root, s.tree.value, [], z.node, z.npre, z.nt, k);
  }

  /** The first leaf of an empty index. */
  lemma FirstLeaf(s: Store, s2: Store, k: Key, v: Val)
    requires Good(s) && s.tree.None? && ZeroFree(k) && 0 !in s2.mem
    requires forall y :: y in s.mem ==> y in s2.mem && s2.mem[y] == s.mem[y]
    requires Fresh(s.mem, s2.mem, s2.root) && LeafAt(s2.mem, s2.root, k, v) && s2.tree == Some(Leaf(k, v))
    ensures StepOK(s, s2) && Good(s2)
  {
    hide At, Apart, Foot, Loc, Ages, WF;
    NoPath(k);
    LeafIs(Leaf(k, v), []);
    LeafTree(s2.mem, s2.root, k, v, []);
    forall y | y in s.mem ensures y in s2.mem && Ages(s.mem[y], s2.mem[y]) { AgesSelf(s.mem[y]); }
  }

  lemma BuiltGraft(m: Mem, m2: Mem, x: Ptr, xt: Trie, xpre: Key, q: Ptr, u: Trie)
    requires Built(m, m2, x, xt, xpre, q, u)
    ensures Graft(m, m2, x, xt, q, u)
  {
    hide Graft, Loc;
  }

  /** A tidy node that is not a Node4 with two children has more than two. */
  lemma FewChildren(n: Node, t: Trie, b: Byte)
    requires Tidy(n) && !n.LeafNode? && t.Inner? && |Kids(n)| == |t.kids|
    ensures |t.kids| == n.num && (|t.kids| == 2 <==> n.Node4? && n.num == 2)
  {
    hide Kids;
  }

  /** Before a collapse: a Node4 whose two children sit on different edges at different addresses. */
  lemma TwoLeft(m: Mem, x: Ptr, xt: Trie, b: Byte)
    requires At(m, x, xt) && Apart(m, x, xt) && xt.Inner? && b in xt.kids && x in m && Tidy(m[x]) && m[x].Node4? && m[x].num == 2
    ensures Shape(m[x]) && |xt.kids| == 2 && m[x].prefix == xt.prefix && Find(m[x], b) == Kid(m, x, b) != 0
    ensures forall e: Byte :: e != b ==> Find(m[x], e) != Kid(m, x, b)
  {
    hide At, Apart, Kids, Shape, Find, Foot;
    InnerNode(m, x, xt);
    TidyShape(m[x]);
    CountKids(m[x], xt);
    TidyCount(m[x]);
    FootKid(m, x, xt, b);
    AtNonNull(m, Kid(m, x, b), xt.kids[b]);
    forall e: Byte | e != b ensures Find(m[x], e) != Kid(m, x, b) {
      KidsAre(m[x], e);
      if e in xt.kids { OtherAddress(m, x, xt, b, e); }
    }
  }

  lemma TidyCount(n: Node)
    requires Tidy(n) && !n.LeafNode?
    ensures Shape(n) && n.num == |Kids(n)|
  {
    hide Shape, Kids;
  }

  lemma OtherAddress(m: Mem, x: Ptr, xt: Trie, b: Byte, e: Byte)
    requires At(m, x, xt) && Apart(m, x, xt) && xt.Inner? && b in xt.kids && e in xt.kids && b != e
    ensures Kid(m, x, e) != Kid(m, x, b)
  {
    hide At, Apart, Foot, Kid;
    FootKids(m, x, xt, b, e);
    SelfInFoot(m, Kid(m, x, b), xt.kids[b]);
    SelfInFoot(m, Kid(m, x, e), xt.kids[e]);
  }

  lemma OtherIs(m: Mem, x: Ptr, xt: Trie, b: Byte, c: Byte, other: Ptr)
    requires At(m, x, xt) && xt.Inner? && x in m && Shape(m[x]) && other != 0 && Find(m[x], c) == other
    ensures c in xt.kids && Kid(m, x, c) == other && other in m && m[other].LeafNode? == xt.kids[c].Leaf?
    ensures xt.kids[c].Inner? ==> Shape(m[other])
  {
    hide At, Kids, Shape, Find, Foot;
    InnerNode(m, x, xt);
    KidsAre(m[x], c);
    FootKid(m, x, xt, c);
    SpotKind(m, other, xt.kids[c]);
  }

  lemma AtLeastTwo(n: Node)
    requires Tidy(n) && n.Node4?
    ensures n.num >= 2
  {
    hide Kids, Shape;
  }

  lemma FoundParent(s: Store, k: Key, w: Spot, b: Byte)
    requires Good(s) && Found(s, k, w, b)
    ensures w.node in s.mem && !s.mem[w.node].LeafNode?
  {
    hide Good, OnPath, Agree, EdgeByte, At;
    SpotIs(s, k, w);
    SpotKind(s.mem, w.node, w.nt);
  }

  lemma FoundHere(s: Store, k: Key, z: Spot, w: Spot)
    requires Good(s) && OnPath(s, k, z) && z.par != 0 && z.nt.Leaf? && z.nt.key == k
    requires OnPath(s, k, w) && w.node == z.par && w.nt == z.pt && w.npre == z.ppre
    ensures Found(s, k, w, z.b) && Kid(s.mem, z.par, z.b) == z.node
  {
    hide Good, Place, Agree, EdgeByte, Through, Kid;
  }

  /** A key that is not stored: delete changes nothing. */
  lemma DeleteMissing(tree: Option<Trie>, m: map<Key, Val>, k: Key)
    requires Holds(tree, m) && ZeroFree(k) && (tree.None? || k !in m)
    ensures k !in m && Through([], k) && tree == Apply(tree, Op.Delete(k)) && m - {k} == m
    ensures OpFits(tree, Op.Delete(k)) && OpReads(tree, Op.Delete(k), [])
    ensures tree.Some? ==> Lookup(tree.value, k, 0) == None
  {
    hide WF, Has, ZeroFree, Through, Agree, EdgeByte;
    NoPath(k);
    if tree.Some? {
      HoldsLookup(tree.value, m, k);
      if tree.value.Inner? { MissedDel(tree.value, k, 0, []); }
    }
  }

  lemma {:induction false} MissedDel(t: Trie, k: Key, d: nat, body: Key)
    requires t.Inner? && Lookup(t, k, d) == None
    ensures DelInner(t, k, d, body) == t && DelFits(t, k, d) && DelReads(t, k, d, body)
  {
    hide Agree, EdgeByte;
    var e := d + |t.prefix|;
    if d <= |k| && Agree(t.prefix, k, d) == |t.prefix| && EdgeByte(k, e) in t.kids && t.kids[EdgeByte(k, e)].Inner? {
      MissedDel(t.kids[EdgeByte(k, e)], k, e + 1, body);
    }
  }

  lemma RootGone(s: Store, s2: Store)
    requires Good(s) && s.tree.Some? && s.tree.value.Leaf? && s2 == Store(s.mem, 0, None)
    ensures StepOK(s, s2) && Good(s2)
  {
    hide Ages, WF, Apart;
    forall y | y in s.mem ensures y in s2.mem && Ages(s.mem[y], s2.mem[y]) { AgesSelf(s.mem[y]); }
  }

  lemma GoodIs(s: Store)
    requires Good(s)
    ensures 0 !in s.mem
    ensures match s.tree case None => s.root == 0 case Some(t) => At(s.mem, s.root, t) && Apart(s.mem, s.root, t)
  {
    hide At, Apart, WF;
  }

  /** The parent of an in-place delete before its writes. */
  lemma InPlaceReady(s: Store, k: Key, w: Spot, b: Byte)
    requires Good(s) && Found(s, k, w, b) && w.node in s.mem && Tidy(s.mem[w.node])
    requires s.mem[w.node].Node48? || s.mem[w.node].Node256?
    ensures |w.nt.kids| != 2 && Shape(s.mem[w.node]) && Find(s.mem[w.node], b) == Kid(s.mem, w.node, b) != 0
  {
    hide At, Apart, WF, OnPath, Agree, EdgeByte, Kids, Shape, Find;
    SpotIs(s, k, w);
    InnerNode(s.mem, w.node, w.nt);
    CountKids(s.mem[w.node], w.nt);
    KidsAre(s.mem[w.node], b);
    BigCount(s.mem[w.node]);
  }

  lemma BigCount(n: Node)
    requires Tidy(n) && (n.Node48? || n.Node256?)
    ensures Shape(n) && |Kids(n)| > 2
  {
    hide Shape, Kids;
  }

  /** What the in-place writes do to the node, one after the other. */
  lemma InPlaceWrites(n: Node, b: Byte)
    requires Tidy(n) && Shape(n) && Find(n, b) != 0 && ((n.Node48? && n.num > 12) || (n.Node256? && n.num > 48))
    ensures var c := SetChild(n, b, 0);
            && Shape(c) && c.Node48? == n.Node48? && c.Node256? == n.Node256? && c.prefix == n.prefix && c.num == n.num
            && (n.Node48? ==>
                  && |c.index| == 256
                  && var d := ClearIndex(c, b);
                     && d.Node48? && d.num == n.num && d.prefix == n.prefix && Shape(d) && Kids(d) == Kids(c) && Ages(c, d)
                     && CountDown(d).Node48? && CountDown(d).prefix == n.prefix
                     && Shape(CountDown(d)) && Kids(CountDown(d)) == Kids(d) && Ages(d, CountDown(d)) && Tidy(CountDown(d)))
            && (n.Node256? ==>
                  && CountDown(c).Node256? && CountDown(c).prefix == n.prefix
                  && Shape(CountDown(c)) && Kids(CountDown(c)) == Kids(c) && Ages(c, CountDown(c)) && Tidy(CountDown(c)))
  {
    hide Kids, Tidy, Find;
    var c := SetChild(n, b, 0);
    SetChildFinds(n, b, 0);
    if n.Node48? {
      Delete48Tidy(n, b);
      ClearIndexKids(c, b);
      ClearIndexAges(c, b);
      CountDownKids(ClearIndex(c, b));
      CountDownAges(ClearIndex(c, b));
    } else {
      Delete256Tidy(n, b);
      CountDownKids(c);
      CountDownAges(c);
    }
  }

  lemma TidyShape(n: Node)
    requires Tidy(n)
    ensures Shape(n)
  {
    hide Shape, Kids;
  }

  /** The guard of an insert, one node at a time. */
  lemma FitsHere(t: Trie, k: Key, d: nat)
    ensures t.Leaf? && t.key == k ==> InsFits(t, k, d)
    ensures t.Inner? && d <= |k| && Agree(t.prefix, k, d) == |t.prefix| ==>
              var e := EdgeByte(k, d + |t.prefix|);
              && (InsFits(t, k, d) <==> if e in t.kids then InsFits(t.kids[e], k, d + |t.prefix| + 1) else |t.kids| < MOST_CHILDREN)
              && (InsReads(t, k, d) <==> (e in t.kids ==> InsReads(t.kids[e], k, d + |t.prefix| + 1)))
  {
    hide Agree, EdgeByte, Common;
  }

  lemma LeafTidy(k: Key, v: Val)
    ensures Tidy(LeafNode(k, v))
  {
  }

  /** The prefix bytes play no part in a node's children. */
  lemma RenamedTidy(n: Node, prefix: Key)
    requires Tidy(n) && !n.LeafNode?
    ensures Tidy(n.(prefix := prefix)) && Kids(n.(prefix := prefix)) == Kids(n)
  {
    hide Kids, Injective, Indexed;
    var r := n.(prefix := prefix);
    forall b: Byte ensures Find(r, b) == if b in Kids(n) then Kids(n)[b] else 0 { KidsAre(n, b); }
    forall b | b in Kids(n) ensures Kids(n)[b] != 0 { KidsAre(n, b); }
    KidsEqual(r, Kids(n));
  }

  lemma SpotRoot(s: Store, k: Key, z: Spot)
    requires Good(s) && OnPath(s, k, z) && z.par == 0
    ensures z.node == s.root
  {
    hide Good;
  }

  lemma RootNone(m: Mem, root: Ptr, tree: Option<Trie>)
    requires match tree case None => root == 0 case Some(t) => At(m, root, t)
    ensures root == 0 <==> tree.None?
  {
    hide InnerAt;
  }
}
