/** The five kinds of nodes of the radix tree, as they lie in memory: parallel key and child
    arrays for small nodes, an index into child slots for Node48, a direct table for Node256.
    Growing, copying and shrinking a node keep the map from bytes to children. */
module ArtNode {
  import opened Options
  import opened Bytes
  import opened ArtTrie
  import opened ArtTrieWalk

  /** An address; 0 is null. */
  type Ptr = nat

  datatype Node =
    | LeafNode(key: Key, val: Val)
    | Node4(prefix: Key, num: nat, keys: seq<Byte>, slots: seq<Ptr>)
    | Node16(prefix: Key, num: nat, keys: seq<Byte>, slots: seq<Ptr>)
    | Node48(prefix: Key, num: nat, index: seq<nat>, slots: seq<Ptr>)
    | Node256(prefix: Key, num: nat, slots: seq<Ptr>)

  function Zeros<T>(n: nat, z: T): (s: seq<T>)
    ensures |s| == n && forall i :: 0 <= i < n ==> s[i] == z
  {
    seq(n, _ => z)
  }

  // ---------- The byte-to-child map ----------

  /** The first position below `num` that holds `b`, or `num`. */
  function KeyAt(keys: seq<Byte>, num: nat, b: Byte, i: nat): (r: nat)
    requires i <= num <= |keys|
    ensures i <= r <= num
    ensures r < num ==> keys[r] == b
    ensures forall j :: i <= j < r ==> keys[j] != b
    decreases num - i
  {
    if i == num || keys[i] == b then i else KeyAt(keys, num, b, i + 1)
  }

  /** What every published node satisfies at every moment, also inside an in-place delete. */
  predicate Shape(n: Node) {
    match n
    case LeafNode(_, _) => true
    case Node4(_, num, keys, slots) => |keys| == |slots| == 4 && num <= 4 && Distinct(keys, num)
    case Node16(_, num, keys, slots) => |keys| == |slots| == 16 && num <= 16 && Distinct(keys, num)
    case Node48(_, _, index, slots) => |index| == 256 && |slots| == 48 && Injective(index)
    case Node256(_, _, slots) => |slots| == 256
  }

  predicate Distinct(keys: seq<Byte>, num: nat)
    requires num <= |keys|
  {
    forall i, j :: 0 <= i < j < num ==> keys[i] != keys[j]
  }

  /** The index of a Node48 names slots 1 to 48, each at most once. */
  predicate Injective(index: seq<nat>) {
    && (forall i :: 0 <= i < |index| ==> index[i] <= 48)
    && (forall i, j :: 0 <= i < j < |index| && index[i] == index[j] ==> index[i] == 0)
  }

  /** The child on edge `b`, or null. */
  function Find(n: Node, b: Byte): Ptr
    requires Shape(n)
  {
    match n
    case LeafNode(_, _) => 0
    case Node4(_, num, keys, slots) => SmallFind(num, keys, slots, b)
    case Node16(_, num, keys, slots) => SmallFind(num, keys, slots, b)
    case Node48(_, _, index, slots) => if index[b] == 0 then 0 else slots[index[b] - 1]
    case Node256(_, _, slots) => slots[b]
  }

  function SmallFind(num: nat, keys: seq<Byte>, slots: seq<Ptr>, b: Byte): Ptr
    requires num <= |keys| == |slots|
  {
    var i := KeyAt(keys, num, b, 0);
    if i < num then slots[i] else 0
  }

  /** The children of a node by edge byte. */
  ghost function Kids(n: Node): map<Byte, Ptr>
    requires Shape(n)
  {
    map b: Byte | 0 <= b < 256 && Find(n, b) != 0 :: Find(n, b)
  }

  /** Byte `i` of an address, low byte first. */
  function AddressByte(p: Ptr, i: nat): Byte {
    if i == 0 then p % 256 else AddressByte(p / 256, i - 1)
  }

  function AddressBytes(slots: seq<Ptr>): Key {
    seq(8 * |slots|, i requires 0 <= i < 8 * |slots| => AddressByte(slots[i / 8], i % 8))
  }

  /** The bytes of an inner node behind its header: its keys or its index, padding, the addresses of its children. */
  function Behind(n: Node): Key {
    match n
    case LeafNode(_, _) => []
    case Node4(_, _, keys, slots) => keys + AddressBytes(slots)
    case Node16(_, _, keys, slots) => keys + Zeros(4, 0) + AddressBytes(slots)
    case Node48(_, _, index, slots) => seq(|index|, i requires 0 <= i < |index| => index[i] % 256) + Zeros(4, 0) + AddressBytes(slots)
    case Node256(_, _, slots) => Zeros(4, 0) + AddressBytes(slots)
  }

  lemma KidsAre(n: Node, b: Byte)
    requires Shape(n)
    ensures b in Kids(n) <==> Find(n, b) != 0
    ensures b in Kids(n) ==> Kids(n)[b] == Find(n, b)
  {
  }

  lemma KidsEqual(n: Node, m: map<Byte, Ptr>)
    requires Shape(n)
    requires forall b: Byte :: Find(n, b) == if b in m then m[b] else 0
    requires forall b :: b in m ==> m[b] != 0
    ensures Kids(n) == m
  {
    hide Find, Shape;
    assert forall b :: b in Kids(n) <==> b in m;
  }

  /** The count is stored in one byte. */
  const COUNTS := 256

  function CountByte(k: nat): nat {
    k % COUNTS
  }

  /** What every node satisfies between operations: the count is exact and inside the kind's band,
      and slots hold children exactly where the keys or the index say so. */
  ghost predicate Tidy(n: Node) {
    && Shape(n)
    && (!n.LeafNode? ==> n.num == |Kids(n)|)
    && match n
       case LeafNode(_, _) => true
       case Node4(_, num, _, slots) => 2 <= num && Filled(slots, num)
       case Node16(_, num, _, slots) => 4 <= num && Filled(slots, num)
       case Node48(_, num, index, slots) => 12 <= num <= 48 && Indexed(index, slots)
       case Node256(_, num, _) => 48 <= num < COUNTS
  }

  predicate Filled(slots: seq<Ptr>, num: nat) {
    forall i :: 0 <= i < |slots| ==> (slots[i] != 0 <==> i < num)
  }

  ghost predicate Indexed(index: seq<nat>, slots: seq<Ptr>)
    requires |index| == 256 && |slots| == 48 && Injective(index)
  {
    && (forall b :: 0 <= b < 256 && index[b] != 0 ==> slots[index[b] - 1] != 0)
    && (forall s :: 0 <= s < 48 && slots[s] != 0 ==> s + 1 in index)
  }

  lemma SmallFindAt(num: nat, keys: seq<Byte>, slots: seq<Ptr>, b: Byte)
    requires num <= |keys| == |slots| && Distinct(keys, num)
    ensures forall i :: 0 <= i < num && keys[i] == b ==> SmallFind(num, keys, slots, b) == slots[i]
    ensures (forall i :: 0 <= i < num ==> keys[i] != b) ==> SmallFind(num, keys, slots, b) == 0
  {
  }

  // ---------- A free slot always exists below 48 ----------

  lemma ImageSize(dom: set<Byte>, index: seq<nat>)
    requires |index| == 256
    ensures |set b | b in dom :: index[b]| <= |dom|
    decreases |dom|
  {
    var img := set b | b in dom :: index[b];
    if dom == {} {
      assert img == {};
    } else {
      var b :| b in dom;
      var rest := dom - {b};
      ImageSize(rest, index);
      assert img == (set c | c in rest :: index[c]) + {index[b]};
    }
  }

  ghost function Range(n: nat): set<nat> {
    if n == 0 then {} else Range(n - 1) + {n}
  }

  lemma {:induction false} RangeIs(n: nat)
    ensures |Range(n)| == n && forall i :: i in Range(n) <==> 1 <= i <= n
  {
    if n > 0 { RangeIs(n - 1); }
  }

  lemma FullHas48(n: Node)
    requires n.Node48? && Tidy(n) && forall s :: 0 <= s < 48 ==> n.slots[s] != 0
    ensures n.num >= 48
  {
    var dom := Kids(n).Keys;
    var img := set b | b in dom :: n.index[b];
    RangeIs(48);
    forall s | s in Range(48) ensures s in img {
      assert n.slots[s - 1] != 0 && s in n.index;
      var b: Byte :| 0 <= b < 256 && n.index[b] == s;
      KidsAre(n, b);
    }
    ImageSize(dom, n.index);
    SubsetSize(Range(48), img);
    assert |dom| == |Kids(n)|;
  }

  /** A Node48 with fewer than 48 children has an empty slot. */
  lemma FreeSlot(n: Node)
    requires n.Node48? && Tidy(n) && n.num < 48
    ensures exists s :: 0 <= s < 48 && n.slots[s] == 0
  {
    if forall s :: 0 <= s < 48 ==> n.slots[s] != 0 {
      FullHas48(n);
    }
  }

  lemma SubsetSize<T>(a: set<T>, b: set<T>)
    requires a <= b
    ensures |a| <= |b|
  {
    assert b == a + (b - a);
  }

  // ---------- Building nodes ----------

  function Leaf4(prefix: Key, b1: Byte, p1: Ptr, b2: Byte, p2: Ptr): Node {
    Node4(prefix, 2, [b1, b2, 0, 0], [p1, p2, 0, 0])
  }

  /** A new Node4 with two children on different edges. */
  lemma TwoKids(prefix: Key, b1: Byte, p1: Ptr, b2: Byte, p2: Ptr)
    requires b1 != b2 && p1 != 0 && p2 != 0
    ensures Tidy(Leaf4(prefix, b1, p1, b2, p2))
    ensures Kids(Leaf4(prefix, b1, p1, b2, p2)) == map[b1 := p1, b2 := p2]
  {
    hide SmallFind, Kids;
    var n := Leaf4(prefix, b1, p1, b2, p2);
    var m := map[b1 := p1, b2 := p2];
    assert n.keys[0] == b1 && n.keys[1] == b2;
    forall b: Byte ensures Find(n, b) == if b in m then m[b] else 0 {
      SmallFindAt(2, n.keys, n.slots, b);
    }
    KidsEqual(n, m);
    assert m.Keys == {b1, b2};
    assert |m| == |m.Keys| == 2;
  }

  // ---------- Copy, grow, shrink ----------

  /** A copy, byte by byte: a small node's key bytes behind its count are zero. */
  function Copied(n: Node): Node {
    match n
    case Node4(prefix, num, keys, slots) => Node4(prefix, num, UsedKeys(keys, num), slots)
    case Node16(prefix, num, keys, slots) => Node16(prefix, num, UsedKeys(keys, num), slots)
    case _ => n
  }

  function UsedKeys(keys: seq<Byte>, num: nat): seq<Byte> {
    seq(|keys|, i requires 0 <= i < |keys| => if i < num then keys[i] else 0)
  }

  /** A copy of the node: keys and children one by one into zeroed arrays. */
  method CopyNode(n: Node) returns (r: Node)
    requires Tidy(n) && !n.LeafNode?
    ensures r == Copied(n)
    ensures Tidy(r) && Kids(r) == Kids(n) && r.prefix == n.prefix && r.num == n.num
    ensures r.Node4? == n.Node4? && r.Node16? == n.Node16? && r.Node48? == n.Node48? && r.Node256? == n.Node256?
  {
    hide Find, Kids, Injective;
    match n
    case Node4(prefix, num, keys, slots) =>
      var k, s := CopySmall(4, num, keys, slots);
      r := Node4(prefix, num, k, s);
      SameSmall(n, r);
    case Node16(prefix, num, keys, slots) =>
      var k, s := CopySmall(16, num, keys, slots);
      r := Node16(prefix, num, k, s);
      SameSmall(n, r);
    case Node48(prefix, num, index, slots) =>
      var ix, s := Copy48(index, slots);
      r := Node48(prefix, num, ix, s);
    case Node256(prefix, num, slots) =>
      var s := Copy256(slots);
      r := Node256(prefix, num, s);
  }

  method Copy48(index: seq<nat>, slots: seq<Ptr>) returns (ix: seq<nat>, s: seq<Ptr>)
    requires |index| == 256 && |slots| == 48 && Injective(index) && Indexed(index, slots)
    ensures ix == index && s == slots
  {
    ix := Zeros(256, 0);
    s := Zeros(48, 0);
    var k := 0;
    while k < 256
      invariant 0 <= k <= 256 && |ix| == 256 && |s| == 48
      invariant forall j :: 0 <= j < 256 ==> ix[j] == if j < k then index[j] else 0
      invariant forall j :: 0 <= j < k && index[j] != 0 ==> s[index[j] - 1] == slots[index[j] - 1]
      invariant forall i :: 0 <= i < 48 && s[i] != 0 ==> s[i] == slots[i]
    {
      var slot := index[k];
      if slot != 0 {
        ix := ix[k := slot];
        s := s[slot - 1 := slots[slot - 1]];
      }
      k := k + 1;
    }
    forall i | 0 <= i < 48 ensures s[i] == slots[i] {
      if slots[i] != 0 { assert i + 1 in index; }
    }
  }

  method Copy256(slots: seq<Ptr>) returns (s: seq<Ptr>)
    requires |slots| == 256
    ensures s == slots
  {
    s := Zeros(256, 0);
    var k := 0;
    while k < 256
      invariant 0 <= k <= 256 && |s| == 256
      invariant forall j :: 0 <= j < 256 ==> s[j] == if j < k then slots[j] else 0
    {
      var child := slots[k];
      if child != 0 {
        s := s[k := child];
      }
      k := k + 1;
    }
  }

  /** The first `num` keys and children of a small node, in arrays of `cap` entries. */
  method CopySmall(cap: nat, num: nat, keys: seq<Byte>, slots: seq<Ptr>) returns (k: seq<Byte>, s: seq<Ptr>)
    requires num <= cap && num <= |keys| == |slots|
    ensures |k| == |s| == cap && k[..num] == keys[..num] && s[..num] == slots[..num]
    ensures forall j :: num <= j < cap ==> k[j] == 0 && s[j] == 0
  {
    k, s := Zeros(cap, 0), Zeros(cap, 0);
    var i := 0;
    while i < num
      invariant 0 <= i <= num && |k| == |s| == cap
      invariant forall j :: 0 <= j < i ==> k[j] == keys[j] && s[j] == slots[j]
      invariant forall j :: i <= j < cap ==> k[j] == 0 && s[j] == 0
    {
      k := k[i := keys[i]];
      s := s[i := slots[i]];
      i := i + 1;
    }
  }

  predicate Small(n: Node) {
    n.Node4? || n.Node16?
  }

  /** Small nodes with the same leading keys and children have the same children, whatever their capacity. */
  lemma SameSmall(n: Node, r: Node)
    requires Small(n) && Small(r) && Shape(n) && r.num == n.num
    requires |r.keys| == |r.slots| == if r.Node4? then 4 else 16
    requires n.num <= |r.keys| && r.keys[..n.num] == n.keys[..n.num] && r.slots[..n.num] == n.slots[..n.num]
    ensures Shape(r) && Kids(r) == Kids(n)
  {
    forall i | 0 <= i < n.num ensures r.keys[i] == n.keys[i] && r.slots[i] == n.slots[i] {
      assert r.keys[..n.num][i] == n.keys[..n.num][i] && r.slots[..n.num][i] == n.slots[..n.num][i];
    }
    forall b: Byte ensures Find(r, b) == Find(n, b) {
      SmallFindAt(n.num, n.keys, n.slots, b);
      SmallFindAt(n.num, r.keys, r.slots, b);
      var i := KeyAt(n.keys, n.num, b, 0);
    }
    KidsEqual(r, Kids(n));
  }

  lemma OneMore(m: map<Byte, Ptr>, b: Byte, p: Ptr)
    requires b !in m
    ensures |m[b := p]| == |m| + 1
  {
    assert m[b := p].Keys == m.Keys + {b};
    assert |m[b := p].Keys| == |m[b := p]| && |m.Keys| == |m|;
  }

  lemma OneLess(m: map<Byte, Ptr>, b: Byte)
    requires b in m
    ensures |m - {b}| == |m| - 1
  {
    assert (m - {b}).Keys == m.Keys - {b};
    assert |(m - {b}).Keys| == |m - {b}| && |m.Keys| == |m|;
  }

  /** A small node grown by one entry at its end. */
  lemma GrownSmall(n: Node, r: Node, b: Byte, p: Ptr)
    requires Small(n) && Small(r) && Shape(n) && Find(n, b) == 0 && p != 0 && Filled(n.slots, n.num)
    requires |r.keys| == |r.slots| == if r.Node4? then 4 else 16
    requires r.num == n.num + 1 <= |r.keys|
    requires r.keys[..n.num] == n.keys[..n.num] && r.slots[..n.num] == n.slots[..n.num]
    requires r.keys[n.num] == b && r.slots[n.num] == p
    ensures Shape(r) && Kids(r) == Kids(n)[b := p] && |Kids(r)| == |Kids(n)| + 1
  {
    hide SmallFind, Kids;
    var m := Kids(n)[b := p];
    forall i | 0 <= i < n.num ensures r.keys[i] == n.keys[i] != b && r.slots[i] == n.slots[i] {
      assert r.keys[..n.num][i] == n.keys[..n.num][i] && r.slots[..n.num][i] == n.slots[..n.num][i];
      SmallFindAt(n.num, n.keys, n.slots, b);
    }
    assert Distinct(r.keys, r.num);
    forall e: Byte ensures Find(r, e) == if e in m then m[e] else 0 {
      GrownFind(n, r, b, p, e);
      KidsAre(n, e);
    }
    forall e | e in m ensures m[e] != 0 { KidsAre(n, e); }
    KidsEqual(r, m);
    KidsAre(n, b);
    OneMore(Kids(n), b, p);
  }

  lemma GrownFind(n: Node, r: Node, b: Byte, p: Ptr, e: Byte)
    requires Small(n) && Small(r) && Shape(n) && Shape(r) && Find(n, b) == 0 && r.num == n.num + 1
    requires forall i :: 0 <= i < n.num ==> r.keys[i] == n.keys[i] != b && r.slots[i] == n.slots[i]
    requires r.keys[n.num] == b && r.slots[n.num] == p
    ensures Find(r, e) == if e == b then p else Find(n, e)
  {
    hide SmallFind;
    SmallFindAt(r.num, r.keys, r.slots, e);
    SmallFindAt(n.num, n.keys, n.slots, e);
  }

  /** The key bytes behind the count are zero. */
  ghost predicate Padded(n: Node) {
    (n.Node4? || n.Node16?) ==> forall i :: n.num <= i < |n.keys| ==> n.keys[i] == 0
  }

  /** The node with one more child, in a node of the same kind, or of the next larger one when it is full. The count of a node
      with all 256 children does not fit its byte, and reads as 0. */
  method AddChildCopy(n: Node, b: Byte, p: Ptr) returns (r: Node)
    requires Tidy(n) && !n.LeafNode? && Find(n, b) == 0 && p != 0
    ensures Shape(r) && !r.LeafNode? && r.prefix == n.prefix && Kids(r) == Kids(n)[b := p]
    ensures if |Kids(n)| < COUNTS - 1 then Tidy(r) else r.Node256? && r.num == 0 && !Tidy(r)
    ensures Padded(r) && (r.Node4? <==> n.Node4? && n.num < 4)
    ensures r.Node16? <==> (n.Node4? && n.num == 4) || (n.Node16? && n.num < 16)
    ensures r.Node48? <==> (n.Node16? && n.num == 16) || (n.Node48? && n.num < 48)
  {
    hide Find, Kids, Distinct, Injective, Filled, Indexed;
    if n.Node4? || (n.Node16? && n.num < 16) {
      r := AddSmall(n, b, p);
    } else if n.Node16? {
      r := Grow48(n, b, p);
    } else if n.Node48? && n.num < 48 {
      r := Add48(n, b, p);
    } else {
      r := AddDirect(n, b, p);
    }
  }

  /** Node4 and Node16: append the entry, moving a full Node4 into a Node16. */
  method AddSmall(n: Node, b: Byte, p: Ptr) returns (r: Node)
    requires Tidy(n) && Small(n) && n.num < 16 && Find(n, b) == 0 && p != 0
    ensures Tidy(r) && Small(r) && r.prefix == n.prefix && r.num == n.num + 1
    ensures Kids(r) == Kids(n)[b := p] && Padded(r) && (r.Node4? <==> n.Node4? && n.num < 4)
  {
    hide Find, Kids, Distinct;
    var cap := if n.Node4? && n.num < 4 then 4 else 16;
    var k, s := CopySmall(cap, n.num, n.keys, n.slots);
    k := k[n.num := b];
    s := s[n.num := p];
    r := if cap == 4 then Node4(n.prefix, n.num + 1, k, s) else Node16(n.prefix, n.num + 1, k, s);
    GrownSmall(n, r, b, p);
    forall i | 0 <= i < cap ensures s[i] != 0 <==> i < r.num {
      if i < n.num { assert s[..n.num][i] == n.slots[..n.num][i]; }
    }
  }

  /** A full Node16 moves into a Node48: entry i takes slot i + 1. */
  method Grow48(n: Node, b: Byte, p: Ptr) returns (r: Node)
    requires Tidy(n) && n.Node16? && n.num == 16 && Find(n, b) == 0 && p != 0
    ensures Tidy(r) && r.Node48? && r.prefix == n.prefix && r.num == 17
    ensures Kids(r) == Kids(n)[b := p]
  {
    hide Find, Kids;
    var ix: seq<nat> := Zeros(256, 0);
    var s: seq<Ptr> := Zeros(48, 0);
    var i := 0;
    while i < n.num
      invariant 0 <= i <= n.num && |ix| == 256 && |s| == 48
      invariant forall e :: 0 <= e < 256 ==> if ix[e] == 0 then e !in n.keys[..i] else ix[e] <= i && n.keys[ix[e] - 1] == e
      invariant forall j :: 0 <= j < 48 ==> s[j] == if j < i then n.slots[j] else 0
    {
      var kb := n.keys[i];
      ix := ix[kb := i + 1];
      s := s[i := n.slots[i]];
      i := i + 1;
      assert n.keys[..i] == n.keys[..i - 1] + [kb];
    }
    SmallFindAt(n.num, n.keys, n.slots, b);
    assert ix[b] == 0 by { if ix[b] != 0 { NoKey(n, b, ix[b] - 1); } }
    r := Node48(n.prefix, n.num + 1, ix[b := n.num + 1], s[n.num := p]);
    Grown48(n, r, b, p, ix, s);
  }

  lemma NoKey(n: Node, b: Byte, i: nat)
    requires Small(n) && Shape(n) && i < n.num && n.keys[i] == b && Filled(n.slots, n.num)
    ensures Find(n, b) != 0
  {
    SmallFindAt(n.num, n.keys, n.slots, b);
  }

  lemma Grown48(n: Node, r: Node, b: Byte, p: Ptr, ix: seq<nat>, s: seq<Ptr>)
    requires Tidy(n) && n.Node16? && n.num == 16 && Find(n, b) == 0 && p != 0
    requires |ix| == 256 && |s| == 48 && ix[b] == 0
    requires forall e :: 0 <= e < 256 ==> if ix[e] == 0 then e !in n.keys[..16] else ix[e] <= 16 && n.keys[ix[e] - 1] == e
    requires forall j :: 0 <= j < 48 ==> s[j] == if j < 16 then n.slots[j] else 0
    requires r == Node48(n.prefix, 17, ix[b := 17], s[16 := p])
    ensures Tidy(r) && Kids(r) == Kids(n)[b := p]
  {
    hide SmallFind, Kids;
    var m := Kids(n)[b := p];
    assert Injective(r.index);
    assert n.keys[..16] == n.keys;
    forall e: Byte ensures Find(r, e) == if e in m then m[e] else 0 {
      SmallFindAt(n.num, n.keys, n.slots, e);
      KidsAre(n, e);
    }
    forall e | e in m ensures m[e] != 0 { KidsAre(n, e); }
    KidsEqual(r, m);
    KidsAre(n, b);
    OneMore(Kids(n), b, p);
    forall j | 0 <= j < 48 && r.slots[j] != 0 ensures j + 1 in r.index {
      if j < 16 { assert n.keys[j] in n.keys; assert r.index[n.keys[j]] == j + 1; } else { assert r.index[b] == j + 1; }
    }
  }

  /** A Node48 with room: the first empty slot takes the child. */
  method Add48(n: Node, b: Byte, p: Ptr) returns (r: Node)
    requires Tidy(n) && n.Node48? && n.num < 48 && Find(n, b) == 0 && p != 0
    ensures Tidy(r) && r.Node48? && r.prefix == n.prefix && r.num == n.num + 1
    ensures Kids(r) == Kids(n)[b := p]
  {
    hide Kids;
    var ix, s := Copy48(n.index, n.slots);
    FreeSlot(n);
    var i := 0;
    while s[i] != 0
      invariant 0 <= i < 48 && exists j :: i <= j < 48 && s[j] == 0
      decreases 48 - i
    {
      i := i + 1;
    }
    r := Node48(n.prefix, n.num + 1, ix[b := i + 1], s[i := p]);
    Added48(n, r, b, p, i);
  }

  lemma Added48(n: Node, r: Node, b: Byte, p: Ptr, i: nat)
    requires Tidy(n) && n.Node48? && n.num < 48 && Find(n, b) == 0 && p != 0 && i < 48 && n.slots[i] == 0
    requires r == Node48(n.prefix, n.num + 1, n.index[b := i + 1], n.slots[i := p])
    ensures Tidy(r) && Kids(r) == Kids(n)[b := p]
  {
    hide Kids, Indexed;
    var m := Kids(n)[b := p];
    AddedIndex(n.index, n.slots, b, p, i);
    forall e: Byte ensures Find(r, e) == if e in m then m[e] else 0 { KidsAre(n, e); }
    forall e | e in m ensures m[e] != 0 { KidsAre(n, e); }
    KidsEqual(r, m);
    KidsAre(n, b);
    OneMore(Kids(n), b, p);
  }

  lemma AddedIndex(index: seq<nat>, slots: seq<Ptr>, b: Byte, p: Ptr, i: nat)
    requires |index| == 256 && |slots| == 48 && Injective(index) && Indexed(index, slots)
    requires i < 48 && slots[i] == 0 && p != 0 && (index[b] == 0 || slots[index[b] - 1] == 0)
    ensures index[b] == 0 && (forall e :: 0 <= e < 256 ==> index[e] != i + 1)
    ensures Injective(index[b := i + 1]) && Indexed(index[b := i + 1], slots[i := p])
  {
    var ix, s := index[b := i + 1], slots[i := p];
    forall j | 0 <= j < 48 && s[j] != 0 ensures j + 1 in ix {
      if j == i { assert ix[b] == j + 1; }
      else { var e :| 0 <= e < 256 && index[e] == j + 1; assert ix[e] == j + 1; }
    }
  }

  /** A full Node48 moves into a Node256; a Node256 takes the child in a copy of its table. */
  method AddDirect(n: Node, b: Byte, p: Ptr) returns (r: Node)
    requires Tidy(n) && (n.Node256? || (n.Node48? && n.num == 48)) && Find(n, b) == 0 && p != 0
    ensures Shape(r) && r.Node256? && r.prefix == n.prefix && r.num == CountByte(n.num + 1)
    ensures Kids(r) == Kids(n)[b := p] && |Kids(r)| == n.num + 1 <= COUNTS
    ensures n.num < COUNTS - 1 ==> Tidy(r)
  {
    hide Kids;
    var s;
    if n.Node256? {
      s := Copy256(n.slots);
    } else {
      s := Zeros(256, 0);
      var k := 0;
      while k < 256
        invariant 0 <= k <= 256 && |s| == 256
        invariant forall e :: 0 <= e < 256 ==> s[e] == if e < k && n.index[e] != 0 then n.slots[n.index[e] - 1] else 0
      {
        var slot := n.index[k];
        if slot != 0 {
          s := s[k := n.slots[slot - 1]];
        }
        k := k + 1;
      }
    }
    s := s[b := p];
    r := Node256(n.prefix, CountByte(n.num + 1), s);
    Direct(n, b, p, r);
  }

  lemma Direct(n: Node, b: Byte, p: Ptr, r: Node)
    requires Tidy(n) && (n.Node256? || (n.Node48? && n.num == 48)) && Find(n, b) == 0 && p != 0
    requires Shape(r) && r.Node256? && r.num == CountByte(n.num + 1)
    requires forall e: Byte :: r.slots[e] == if e == b then p else Find(n, e)
    ensures Kids(r) == Kids(n)[b := p] && |Kids(r)| == n.num + 1 <= COUNTS
    ensures n.num < COUNTS - 1 ==> Tidy(r)
  {
    hide Kids;
    var m := Kids(n)[b := p];
    forall e: Byte ensures Find(r, e) == if e in m then m[e] else 0 { KidsAre(n, e); }
    forall e | e in m ensures m[e] != 0 { KidsAre(n, e); }
    KidsEqual(r, m);
    KidsAre(n, b);
    OneMore(Kids(n), b, p);
    FewerThanCounts(n);
  }

  lemma FewerThanCounts(n: Node)
    requires Tidy(n) && (n.Node256? || n.Node48?)
    ensures n.num < COUNTS
  {
  }

  // ---------- Removing a child ----------

  /** The entries of a small node other than the one on edge `b`, in a zeroed array of `cap` entries. */
  method DropSmall(n: Node, b: Byte, cap: nat) returns (k: seq<Byte>, s: seq<Ptr>)
    requires Tidy(n) && Small(n) && Find(n, b) != 0 && n.num - 1 <= cap
    ensures |k| == |s| == cap && Distinct(k, n.num - 1) && Filled(s, n.num - 1)
    ensures forall e: Byte :: SmallFind(n.num - 1, k, s, e) == if e == b then 0 else Find(n, e)
    ensures forall j :: n.num - 1 <= j < cap ==> k[j] == 0
  {
    hide Kids, SmallFind, KeyAt;
    var at := KeyAt(n.keys, n.num, b, 0);
    HasKeyAt(n, b);
    k, s := Zeros(cap, 0), Zeros(cap, 0);
    var i, idx := 0, 0;
    while i < n.num
      invariant 0 <= i <= n.num && |k| == |s| == cap
      invariant idx == if i <= at then i else i - 1
      invariant forall j :: 0 <= j < i && j != at ==> var t := if j < at then j else j - 1; k[t] == n.keys[j] && s[t] == n.slots[j]
      invariant forall j :: idx <= j < cap ==> k[j] == 0 && s[j] == 0
    {
      var kb := n.keys[i];
      if kb != b {
        k := k[idx := kb];
        s := s[idx := n.slots[i]];
        idx := idx + 1;
      }
      i := i + 1;
    }
    Dropped(n, b, at, cap, k, s);
  }

  lemma HasKeyAt(n: Node, b: Byte)
    requires Small(n) && Shape(n) && Find(n, b) != 0
    ensures var at := KeyAt(n.keys, n.num, b, 0); at < n.num && n.keys[at] == b
    ensures forall j :: 0 <= j < n.num && j != KeyAt(n.keys, n.num, b, 0) ==> n.keys[j] != b
  {
  }

  lemma Dropped(n: Node, b: Byte, at: nat, cap: nat, k: seq<Byte>, s: seq<Ptr>)
    requires Small(n) && Shape(n) && Filled(n.slots, n.num) && at < n.num && n.keys[at] == b
    requires |k| == |s| == cap && n.num - 1 <= cap
    requires forall j :: 0 <= j < n.num && j != at ==> var t := if j < at then j else j - 1; k[t] == n.keys[j] && s[t] == n.slots[j]
    requires forall j :: n.num - 1 <= j < cap ==> s[j] == 0
    ensures Distinct(k, n.num - 1) && Filled(s, n.num - 1)
    ensures forall e: Byte :: SmallFind(n.num - 1, k, s, e) == if e == b then 0 else Find(n, e)
  {
    hide SmallFind, KeyAt;
    var m := n.num - 1;
    forall t | 0 <= t < m ensures var j := if t < at then t else t + 1; k[t] == n.keys[j] && s[t] == n.slots[j] {
      var j := if t < at then t else t + 1;
      assert j != at;
    }
    forall e: Byte ensures SmallFind(m, k, s, e) == if e == b then 0 else Find(n, e) {
      SmallFindAt(m, k, s, e);
      SmallFindAt(n.num, n.keys, n.slots, e);
    }
  }

  /** The node without the child on edge `b`, in the same kind or the next smaller one; nothing
      for a Node48 above 12 children or a Node256 above 48, which are changed in place. */
  method RemoveChildCopy(n: Node, b: Byte) returns (r: Option<Node>)
    requires Tidy(n) && !n.LeafNode? && Find(n, b) != 0
    requires n.Node4? ==> n.num > 2
    ensures r.None? <==> (n.Node48? && n.num > 12) || (n.Node256? && n.num > 48)
    ensures r.Some? ==> Tidy(r.value) && !r.value.LeafNode? && r.value.prefix == n.prefix && Kids(r.value) == Kids(n) - {b}
    ensures r.Some? ==> Padded(r.value) && (r.value.Node4? <==> n.Node4? || (n.Node16? && n.num <= 4))
    ensures r.Some? ==> (r.value.Node16? <==> (n.Node16? && n.num > 4) || n.Node48?) && (r.value.Node48? <==> n.Node256?)
  {
    hide Find, Kids, Distinct, Injective, Filled, Indexed;
    if Small(n) {
      var m := RemoveSmall(n, b);
      r := Some(m);
    } else if n.Node48? && n.num <= 12 {
      var m := Shrink48(n, b);
      r := Some(m);
    } else if n.Node256? && n.num <= 48 {
      var m := Shrink256(n, b);
      r := Some(m);
    } else {
      r := None;
    }
  }

  method RemoveSmall(n: Node, b: Byte) returns (r: Node)
    requires Tidy(n) && Small(n) && Find(n, b) != 0 && n.num > 2
    ensures Tidy(r) && Small(r) && r.prefix == n.prefix && Kids(r) == Kids(n) - {b}
    ensures Padded(r) && (r.Node4? <==> n.Node4? || n.num <= 4)
  {
    hide Kids, SmallFind;
    if n.Node4? || n.num <= 4 {
      var k, s := DropSmall(n, b, 4);
      r := Node4(n.prefix, n.num - 1, k, s);
    } else {
      var k, s := DropSmall(n, b, 16);
      r := Node16(n.prefix, n.num - 1, k, s);
    }
    Lessened(n, r, b);
  }

  /** A node that finds what `n` finds, except on edge `b`, has one child less. */
  lemma Lessened(n: Node, r: Node, b: Byte)
    requires Shape(n) && Shape(r) && Find(n, b) != 0
    requires forall e: Byte :: Find(r, e) == if e == b then 0 else Find(n, e)
    ensures Kids(r) == Kids(n) - {b} && |Kids(r)| == |Kids(n)| - 1
  {
    hide Find, Kids, Shape;
    forall e: Byte ensures Find(r, e) == if e in Kids(n) - {b} then (Kids(n) - {b})[e] else 0 { KidsAre(n, e); }
    forall e | e in Kids(n) - {b} ensures (Kids(n) - {b})[e] != 0 { KidsAre(n, e); }
    KidsEqual(r, Kids(n) - {b});
    KidsAre(n, b);
    OneLess(Kids(n), b);
  }

  lemma LessKids(n: Node, b: Byte)
    requires Shape(n) && Find(n, b) != 0
    ensures var m := Kids(n) - {b};
            |Edges(m)| == |m| == |Kids(n)| - 1 && forall e: Byte :: (e in m <==> Find(n, e) != 0 && e != b) && (e in m ==> m[e] == Find(n, e))
  {
    hide Find, Shape;
    var m := Kids(n) - {b};
    OneLess(Kids(n), b);
    EdgesCount(m, 0);
    assert (set e | e in m && e >= 0) == m.Keys;
    assert |m.Keys| == |m|;
  }

  lemma NextEdge<T>(kids: map<Byte, T>, b: nat)
    requires b < 256
    ensures EdgesFrom(kids, b) == (if b in kids then [b] else []) + EdgesFrom(kids, b + 1)
  {
  }

  /** `es` lists in ascending order the edges of `m` below `i`. */
  ghost predicate Below(es: seq<Byte>, m: map<Byte, Ptr>, i: nat)
    requires i <= 256
  {
    es + EdgesFrom(m, i) == Edges(m)
  }

  lemma BelowStart(m: map<Byte, Ptr>)
    ensures Below([], m, 0)
  {
  }

  lemma BelowStep(es: seq<Byte>, m: map<Byte, Ptr>, i: nat)
    requires i < 256 && Below(es, m, i)
    ensures if i in m then Below(es + [i], m, i + 1) && |es| < |Edges(m)| else Below(es, m, i + 1)
  {
    hide EdgesFrom;
    NextEdge(m, i);
    if i in m {
      assert es + [i as Byte] + EdgesFrom(m, i + 1) == es + ([i as Byte] + EdgesFrom(m, i + 1));
    }
  }

  lemma BelowEnd(es: seq<Byte>, m: map<Byte, Ptr>)
    requires Below(es, m, 256)
    ensures es == Edges(m)
  {
  }

  /** A Node48 with at most 12 children moves into a Node16, edges ascending. */
  method Shrink48(n: Node, b: Byte) returns (r: Node)
    requires Tidy(n) && n.Node48? && n.num <= 12 && Find(n, b) != 0
    ensures Tidy(r) && r.Node16? && r.prefix == n.prefix && Kids(r) == Kids(n) - {b} && Padded(r)
  {
    hide Kids, SmallFind, KeyAt, EdgesFrom;
    LessKids(n, b);
    var k, s := Collect(n.index, n.slots, b, Kids(n) - {b});
    r := Node16(n.prefix, n.num - 1, k, s);
    Sorted16(n, r, b);
  }

  method Collect(index: seq<nat>, slots: seq<Ptr>, b: Byte, ghost m: map<Byte, Ptr>) returns (k: seq<Byte>, s: seq<Ptr>)
    requires |index| == 256 && |slots| == 48 && forall i :: 0 <= i < 256 ==> index[i] <= 48
    requires forall e: Byte :: (e in m <==> index[e] != 0 && e != b) && (e in m ==> m[e] == slots[index[e] - 1])
    requires |Edges(m)| <= 16
    ensures |k| == |s| == 16 && k[..|Edges(m)|] == Edges(m)
    ensures forall j :: 0 <= j < 16 ==> if j < |Edges(m)| then k[j] in m && s[j] == m[k[j]] else k[j] == 0 && s[j] == 0
  {
    hide Edges, Below;
    k := Zeros(16, 0);
    s := Zeros(16, 0);
    ghost var es: seq<Byte> := [];
    var i, idx := 0, 0;
    BelowStart(m);
    while i < 256
      invariant 0 <= i <= 256 && idx == |es| <= |Edges(m)| && |k| == |s| == 16 && Below(es, m, i)
      invariant forall j :: 0 <= j < idx ==> k[j] == es[j] && k[j] in m && s[j] == m[k[j]]
      invariant forall j :: idx <= j < 16 ==> k[j] == 0 && s[j] == 0
    {
      BelowStep(es, m, i);
      var slot := index[i];
      if slot != 0 {
        if i != b {
          k := k[idx := i];
          s := s[idx := slots[slot - 1]];
          es := es + [i];
          idx := idx + 1;
        }
      }
      i := i + 1;
    }
    BelowEnd(es, m);
  }

  lemma Sorted16(n: Node, r: Node, b: Byte)
    requires Shape(n) && Find(n, b) != 0 && r.Node16? && |r.keys| == |r.slots| == 16
    requires r.num == |Kids(n)| - 1 == |Edges(Kids(n) - {b})| && 4 <= r.num <= 11 && r.keys[..r.num] == Edges(Kids(n) - {b})
    requires forall j :: 0 <= j < 16 ==> if j < r.num then r.keys[j] in Kids(n) - {b} && r.slots[j] == (Kids(n) - {b})[r.keys[j]] else r.slots[j] == 0
    ensures Tidy(r) && Kids(r) == Kids(n) - {b}
  {
    hide SmallFind, KeyAt, EdgesFrom, Kids;
    var m := Kids(n) - {b};
    EdgesAre(m, 0);
    LessKids(n, b);
    AscendingKeys(r.keys, r.num, m);
    forall j | 0 <= j < r.num ensures r.slots[j] != 0 { assert r.keys[j] in m; }
    forall e: Byte ensures Find(r, e) == if e == b then 0 else Find(n, e) {
      SmallFindAt(r.num, r.keys, r.slots, e);
      if e in m { assert e in Edges(m); var j :| 0 <= j < r.num && r.keys[..r.num][j] == e; assert r.keys[j] == e; }
    }
    Lessened(n, r, b);
  }

  lemma AscendingKeys(keys: seq<Byte>, num: nat, m: map<Byte, Ptr>)
    requires num <= |keys| && keys[..num] == Edges(m)
    ensures Distinct(keys, num)
  {
    hide EdgesFrom;
    EdgesAre(m, 0);
    forall i, j | 0 <= i < j < num ensures keys[i] != keys[j] {
      assert keys[..num][i] < keys[..num][j];
    }
  }

  /** `ix` sends each edge of `es` to its position plus one and everything else to 0. */
  ghost predicate Indexes(ix: seq<nat>, es: seq<Byte>) {
    && |ix| == 256
    && (forall j :: 0 <= j < |es| ==> ix[es[j]] == j + 1)
    && (forall e :: 0 <= e < 256 && ix[e] != 0 ==> ix[e] <= |es| && es[ix[e] - 1] == e)
  }

  lemma IndexesMore(ix: seq<nat>, es: seq<Byte>, i: Byte)
    requires Indexes(ix, es) && i !in es
    ensures Indexes(ix[i := |es| + 1], es + [i])
  {
  }

  /** A Node256 with at most 48 children moves into a Node48, slots in edge order. */
  method Shrink256(n: Node, b: Byte) returns (r: Node)
    requires Tidy(n) && n.Node256? && n.num <= 48 && Find(n, b) != 0
    ensures Tidy(r) && r.Node48? && r.prefix == n.prefix && Kids(r) == Kids(n) - {b}
  {
    hide Kids, EdgesFrom;
    LessKids(n, b);
    var ix, s := CollectSlots(n.slots, b, Kids(n) - {b});
    r := Node48(n.prefix, n.num - 1, ix, s);
    Sorted48(n, r, b);
  }

  method CollectSlots(slots: seq<Ptr>, b: Byte, ghost m: map<Byte, Ptr>) returns (ix: seq<nat>, s: seq<Ptr>)
    requires |slots| == 256
    requires forall e: Byte :: (e in m <==> slots[e] != 0 && e != b) && (e in m ==> m[e] == slots[e])
    requires |Edges(m)| <= 48
    ensures |s| == 48 && Indexes(ix, Edges(m))
    ensures forall j :: 0 <= j < 48 ==> if j < |Edges(m)| then Edges(m)[j] in m && s[j] == m[Edges(m)[j]] else s[j] == 0
  {
    hide Edges, Indexes, Below;
    ix := Zeros(256, 0);
    s := Zeros(48, 0);
    ghost var es: seq<Byte> := [];
    var i, idx := 0, 1;
    BelowStart(m);
    NoIndexes(ix);
    while i < 256
      invariant 0 <= i <= 256 && idx == |es| + 1 && |es| <= |Edges(m)| && |s| == 48 && |ix| == 256 && Below(es, m, i)
      invariant Indexes(ix, es)
      invariant forall j :: 0 <= j < |es| ==> es[j] < i && es[j] in m && s[j] == m[es[j]]
      invariant forall j :: |es| <= j < 48 ==> s[j] == 0
    {
      BelowStep(es, m, i);
      var child := slots[i];
      if child != 0 {
        if i != b {
          IndexesMore(ix, es, i);
          ix := ix[i := idx];
          s := s[idx - 1 := child];
          es := es + [i];
          idx := idx + 1;
        }
      }
      i := i + 1;
    }
    BelowEnd(es, m);
  }

  lemma NoIndexes(ix: seq<nat>)
    requires |ix| == 256 && forall i :: 0 <= i < 256 ==> ix[i] == 0
    ensures Indexes(ix, [])
  {
  }

  lemma Sorted48(n: Node, r: Node, b: Byte)
    requires Shape(n) && Find(n, b) != 0 && r.Node48? && |r.slots| == 48
    requires r.num == |Kids(n)| - 1 == |Edges(Kids(n) - {b})| && 12 <= r.num <= 47 && Indexes(r.index, Edges(Kids(n) - {b}))
    requires var m := Kids(n) - {b};
             forall j :: 0 <= j < 48 ==> if j < r.num then Edges(m)[j] in m && r.slots[j] == m[Edges(m)[j]] else r.slots[j] == 0
    ensures Tidy(r) && Kids(r) == Kids(n) - {b}
  {
    hide EdgesFrom, Kids, Indexes, Edges, Injective, Indexed;
    var m := Kids(n) - {b};
    LessKids(n, b);
    forall e | e in m ensures m[e] != 0 { KidsAre(n, e); }
    IndexesGood(r.index, r.slots, m);
    forall e: Byte ensures Find(r, e) == if e == b then 0 else Find(n, e) {
      IndexesFind(r.index, r.slots, m, e);
    }
    Lessened(n, r, b);
  }

  lemma IndexesGood(ix: seq<nat>, s: seq<Ptr>, m: map<Byte, Ptr>)
    requires Indexes(ix, Edges(m)) && |s| == 48 && |Edges(m)| <= 48 && forall e :: e in m ==> m[e] != 0
    requires forall j :: 0 <= j < 48 ==> if j < |Edges(m)| then Edges(m)[j] in m && s[j] == m[Edges(m)[j]] else s[j] == 0
    ensures |ix| == 256 && Injective(ix) && Indexed(ix, s)
  {
    hide Edges;
    var es := Edges(m);
    forall j | 0 <= j < 48 && s[j] != 0 ensures j + 1 in ix { assert ix[es[j]] == j + 1; }
  }

  lemma IndexesFind(ix: seq<nat>, s: seq<Ptr>, m: map<Byte, Ptr>, e: Byte)
    requires Indexes(ix, Edges(m)) && |s| == 48 && |Edges(m)| <= 48
    requires forall j :: 0 <= j < 48 ==> if j < |Edges(m)| then Edges(m)[j] in m && s[j] == m[Edges(m)[j]] else s[j] == 0
    ensures ix[e] <= 48 && (if ix[e] == 0 then 0 else s[ix[e] - 1]) == if e in m then m[e] else 0
  {
    hide EdgesFrom;
    EdgesAre(m, 0);
    var es := Edges(m);
    if e in m { assert e in es; var j :| 0 <= j < |es| && es[j] == e; assert ix[e] == j + 1; }
  }

  // ---------- Reading and replacing one child ----------

  /** The descent step: scan the keys, or go through the index, or straight to the table. */
  method FindChild(n: Node, b: Byte) returns (p: Ptr)
    requires Shape(n)
    ensures p == Find(n, b)
  {
    match n
    case LeafNode(_, _) => p := 0;
    case Node4(_, num, keys, slots) => p := ScanKeys(num, keys, slots, b);
    case Node16(_, num, keys, slots) => p := ScanKeys(num, keys, slots, b);
    case Node48(_, _, index, slots) => p := if index[b] != 0 then slots[index[b] - 1] else 0;
    case Node256(_, _, slots) => p := slots[b];
  }

  method ScanKeys(num: nat, keys: seq<Byte>, slots: seq<Ptr>, b: Byte) returns (p: Ptr)
    requires num <= |keys| == |slots| && Distinct(keys, num)
    ensures p == SmallFind(num, keys, slots, b)
  {
    hide SmallFind;
    SmallFindAt(num, keys, slots, b);
    var i := 0;
    while i < num
      invariant 0 <= i <= num && forall j :: 0 <= j < i ==> keys[j] != b
    {
      if keys[i] == b {
        return slots[i];
      }
      i := i + 1;
    }
    p := 0;
  }

  /** The child slot that an edge uses. */
  function SlotOf(n: Node, b: Byte): nat
    requires Shape(n) && Find(n, b) != 0
  {
    match n
    case Node4(_, num, keys, _) => KeyAt(keys, num, b, 0)
    case Node16(_, num, keys, _) => KeyAt(keys, num, b, 0)
    case Node48(_, _, index, _) => index[b] - 1
    case Node256(_, _, _) => b
  }

  /** The node with the child on a used edge replaced; null clears the slot. */
  function SetChild(n: Node, b: Byte, p: Ptr): Node
    requires Shape(n) && Find(n, b) != 0
  {
    n.(slots := n.slots[SlotOf(n, b) := p])
  }

  lemma SetChildFinds(n: Node, b: Byte, p: Ptr)
    requires Shape(n) && Find(n, b) != 0
    ensures Shape(SetChild(n, b, p))
    ensures forall e: Byte :: Find(SetChild(n, b, p), e) == if e == b then p else Find(n, e)
  {
    hide KeyAt;
    var r := SetChild(n, b, p);
    if Small(n) {
      HasKeyAt(n, b);
      forall e: Byte ensures Find(r, e) == if e == b then p else Find(n, e) {
        SmallFindAt(n.num, n.keys, n.slots, e);
        SmallFindAt(n.num, n.keys, r.slots, e);
      }
    }
  }

  lemma SetChildKids(n: Node, b: Byte, p: Ptr)
    requires Shape(n) && Find(n, b) != 0
    ensures Shape(SetChild(n, b, p))
    ensures Kids(SetChild(n, b, p)) == if p == 0 then Kids(n) - {b} else Kids(n)[b := p]
  {
    hide Find, Kids, Shape, SetChild;
    var r := SetChild(n, b, p);
    SetChildFinds(n, b, p);
    var m := if p == 0 then Kids(n) - {b} else Kids(n)[b := p];
    forall e: Byte ensures Find(r, e) == if e in m then m[e] else 0 { KidsAre(n, e); }
    forall e | e in m ensures m[e] != 0 { KidsAre(n, e); }
    KidsEqual(r, m);
  }

  /** Publishing a new child keeps a node tidy. */
  lemma SetChildTidy(n: Node, b: Byte, p: Ptr)
    requires Tidy(n) && Find(n, b) != 0 && p != 0
    ensures Tidy(SetChild(n, b, p))
  {
    hide Kids, KeyAt;
    SetChildKids(n, b, p);
    KidsAre(n, b);
    assert Kids(n)[b := p].Keys == Kids(n).Keys;
    assert |Kids(n)[b := p].Keys| == |Kids(n)[b := p]| && |Kids(n).Keys| == |Kids(n)|;
    if n.Node48? {
      assert Indexed(n.index, n.slots[n.index[b] - 1 := p]);
    } else if Small(n) {
      HasKeyAt(n, b);
    }
  }

  /** The compare-and-swap on the child slot of an edge: it fails where the edge has no slot or the
      slot holds something else. */
  method CasChild(n: Node, b: Byte, was: Ptr, p: Ptr) returns (r: Option<Node>)
    requires Shape(n) && was != 0
    ensures Find(n, b) == was ==> r == Some(SetChild(n, b, p))
    ensures Find(n, b) != was ==> r == None
  {
    hide KeyAt;
    var at := SlotFor(n, b);
    if at.None? {
      r := None;
    } else if n.slots[at.value] == was {
      r := Some(n.(slots := n.slots[at.value := p]));
    } else {
      r := None;
    }
  }

  /** Where the slot of an edge is, if the node has one. */
  method SlotFor(n: Node, b: Byte) returns (at: Option<nat>)
    requires Shape(n)
    ensures at.None? ==> Find(n, b) == 0
    ensures at.Some? ==> !n.LeafNode? && at.value < |n.slots| && n.slots[at.value] == Find(n, b)
    ensures Find(n, b) != 0 ==> at == Some(SlotOf(n, b))
  {
    at := None;
    match n
    case LeafNode(_, _) =>
    case Node4(_, num, keys, _) =>
      var i := KeySlot(num, keys, b);
      if i < num { at := Some(i); }
    case Node16(_, num, keys, _) =>
      var i := KeySlot(num, keys, b);
      if i < num { at := Some(i); }
    case Node48(_, _, index, _) =>
      if index[b] != 0 { at := Some(index[b] - 1); }
    case Node256(_, _, _) =>
      at := Some(b);
  }

  method KeySlot(num: nat, keys: seq<Byte>, b: Byte) returns (i: nat)
    requires num <= |keys|
    ensures i == KeyAt(keys, num, b, 0)
  {
    i := 0;
    while i < num
      invariant i <= num && KeyAt(keys, num, b, i) == KeyAt(keys, num, b, 0)
    {
      if keys[i] == b {
        break;
      }
      i := i + 1;
    }
  }

  // ---------- The in-place deletes ----------

  /** The last two of the three writes that delete from a Node48 in place; the first one clears the slot. */
  function ClearIndex(n: Node, b: Byte): Node
    requires n.Node48? && |n.index| == 256
  {
    n.(index := n.index[b := 0])
  }

  function CountDown(n: Node): Node
    requires (n.Node48? || n.Node256?) && n.num > 0
  {
    n.(num := n.num - 1)
  }

  lemma ClearIndexKids(n: Node, b: Byte)
    requires n.Node48? && Shape(n) && Find(n, b) == 0
    ensures Shape(ClearIndex(n, b)) && Kids(ClearIndex(n, b)) == Kids(n)
  {
    hide Kids;
    var r := ClearIndex(n, b);
    assert Injective(r.index);
    forall e: Byte ensures Find(r, e) == if e in Kids(n) then Kids(n)[e] else 0 { KidsAre(n, e); }
    forall e | e in Kids(n) ensures Kids(n)[e] != 0 { KidsAre(n, e); }
    KidsEqual(r, Kids(n));
  }

  lemma CountDownKids(n: Node)
    requires (n.Node48? || n.Node256?) && n.num > 0 && Shape(n)
    ensures Shape(CountDown(n)) && Kids(CountDown(n)) == Kids(n)
  {
    hide Kids;
    var r := CountDown(n);
    forall e: Byte ensures Find(r, e) == if e in Kids(n) then Kids(n)[e] else 0 { KidsAre(n, e); }
    forall e | e in Kids(n) ensures Kids(n)[e] != 0 { KidsAre(n, e); }
    KidsEqual(r, Kids(n));
  }

  /** The three writes together remove one child and leave the Node48 tidy. */
  lemma Delete48Tidy(n: Node, b: Byte)
    requires Tidy(n) && n.Node48? && n.num > 12 && Find(n, b) != 0
    ensures var c := SetChild(n, b, 0);
            Shape(c) && Find(c, b) == 0 && Tidy(CountDown(ClearIndex(c, b)))
            && Kids(CountDown(ClearIndex(c, b))) == Kids(n) - {b}
  {
    hide Kids;
    var c := SetChild(n, b, 0);
    SetChildKids(n, b, 0);
    SetChildFinds(n, b, 0);
    ClearIndexKids(c, b);
    CountDownKids(ClearIndex(c, b));
    KidsAre(n, b);
    OneLess(Kids(n), b);
    ClearedIndexed(n.index, n.slots, b);
  }

  lemma ClearedIndexed(index: seq<nat>, slots: seq<Ptr>, b: Byte)
    requires |index| == 256 && |slots| == 48 && Injective(index) && Indexed(index, slots) && index[b] != 0
    ensures Injective(index[b := 0]) && Indexed(index[b := 0], slots[index[b] - 1 := 0])
  {
    var ix, s := index[b := 0], slots[index[b] - 1 := 0];
    forall j | 0 <= j < 48 && s[j] != 0 ensures j + 1 in ix {
      var e :| 0 <= e < 256 && index[e] == j + 1;
      assert ix[e] == j + 1;
    }
  }

  lemma Delete256Tidy(n: Node, b: Byte)
    requires Tidy(n) && n.Node256? && n.num > 48 && Find(n, b) != 0
    ensures var c := SetChild(n, b, 0);
            Shape(c) && Tidy(CountDown(c)) && Kids(CountDown(c)) == Kids(n) - {b}
  {
    hide Kids;
    var c := SetChild(n, b, 0);
    SetChildKids(n, b, 0);
    CountDownKids(c);
    KidsAre(n, b);
    OneLess(Kids(n), b);
  }
}
