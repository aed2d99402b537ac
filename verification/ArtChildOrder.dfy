/** The children of a node in ascending edge order, found differently in each of the four kinds. */
module ArtChildOrder {
  import opened Options
  import opened Bytes
  import opened ArtTrieWalk
  import opened ArtNode

  /** The child on the i-th smallest used edge. */
  ghost function Nth(n: Node, i: nat): Option<(Ptr, Byte)>
    requires Shape(n)
  {
    var es := Edges(Kids(n));
    EdgesAre(Kids(n), 0);
    if i < |es| then Some((Kids(n)[es[i]], es[i])) else None
  }

  lemma CountEdges(n: Node)
    requires Tidy(n) && !n.LeafNode?
    ensures Shape(n) && |Edges(Kids(n))| == n.num
  {
    hide Kids, Shape, EdgesFrom;
    var m := Kids(n);
    EdgesCount(m, 0);
    assert (set e | e in m && e >= 0) == m.Keys;
    assert |m.Keys| == |m|;
  }

  /** The walk over all byte values has met the `i` smallest used edges and stands on the next one. */
  lemma NthHere(n: Node, es: seq<Byte>, b: nat, i: nat)
    requires Shape(n) && b < 256 && Below(es, Kids(n), b) && |es| == i && b in Kids(n)
    ensures Nth(n, i) == Some((Kids(n)[b], b))
  {
    hide Kids, Shape, EdgesFrom;
    BelowStep(es, Kids(n), b);
    assert (es + [b as Byte] + EdgesFrom(Kids(n), b + 1))[i] == b;
  }

  /** The registers `c` and `v` hold the first `i` entries of a Node4 in ascending key order; 256 marks
      an empty register. */
  ghost predicate Registers(n: Node, i: nat, c: seq<int>, v: seq<Ptr>)
    requires n.Node4? && Shape(n)
  {
    i <= n.num && InOrder(i, c) && FromNode(n, i, c, v) && AllIn(n, i, c)
  }

  ghost predicate InOrder(i: nat, c: seq<int>) {
    && i <= 4 && |c| == 4
    && (forall j :: 0 <= j < 4 ==> if j < i then 0 <= c[j] < 256 else c[j] == 256)
    && (forall a, b :: 0 <= a < b < i ==> c[a] < c[b])
  }

  ghost predicate Entry4(n: Node, i: nat, k: int, p: Ptr)
    requires n.Node4? && Shape(n) && i <= n.num
  {
    exists a :: 0 <= a < i && n.keys[a] == k && n.slots[a] == p
  }

  ghost predicate FromNode(n: Node, i: nat, c: seq<int>, v: seq<Ptr>)
    requires n.Node4? && Shape(n) && i <= n.num
  {
    |c| == |v| == 4 && forall j :: 0 <= j < i ==> Entry4(n, i, c[j], v[j])
  }

  ghost predicate AllIn(n: Node, i: nat, c: seq<int>)
    requires n.Node4? && Shape(n) && i <= n.num
  {
    |c| == 4 && forall a :: 0 <= a < i ==> n.keys[a] in c
  }

  method Nth4(n: Node, i: nat) returns (child: Ptr, kb: Byte)
    requires Tidy(n) && n.Node4? && i < n.num
    ensures Shape(n) && Nth(n, i) == Some((child, kb))
  {
    hide Nth, Kids, Tidy, KeyAt, SmallFind, Registers, Edges;
    TidyNode4(n);
    NoRegisters(n, [256, 256, 256, 256], [0, 0, 0, 0]);
    var c0: int, c1: int, c2: int, c3: int := 256, 256, 256, 256;
    var v0: Ptr, v1: Ptr, v2: Ptr, v3: Ptr := 0, 0, 0, 0;
    var j := 0;
    while j < n.num
      invariant j <= n.num && Registers(n, j, [c0, c1, c2, c3], [v0, v1, v2, v3])
    {
      var k, p := n.keys[j], n.slots[j];
      ghost var c, v := [c0, c1, c2, c3], [v0, v1, v2, v3];
      if k < c0 {
        c0, v0, c1, v1, c2, v2, c3, v3 := k, p, c0, v0, c1, v1, c2, v2;
      } else if k < c1 {
        c1, v1, c2, v2, c3, v3 := k, p, c1, v1, c2, v2;
      } else if k < c2 {
        c2, v2, c3, v3 := k, p, c2, v2;
      } else if k < c3 {
        c3, v3 := k, p;
      }
      RegistersMore(n, j, c, v, [c0, c1, c2, c3], [v0, v1, v2, v3]);
      j := j + 1;
    }
    RegistersNth(n, i, [c0, c1, c2, c3], [v0, v1, v2, v3]);
    var c := if i == 0 then c0 else if i == 1 then c1 else if i == 2 then c2 else c3;
    assert c == [c0, c1, c2, c3][i];
    child := if i == 0 then v0 else if i == 1 then v1 else if i == 2 then v2 else v3;
    kb := c;
  }

  lemma NoRegisters(n: Node, c: seq<int>, v: seq<Ptr>)
    requires n.Node4? && Shape(n) && c == [256, 256, 256, 256] && |v| == 4
    ensures Registers(n, 0, c, v)
  {
  }

  lemma TidyNode4(n: Node)
    requires Tidy(n) && n.Node4?
    ensures Shape(n) && n.num <= 4 && |n.keys| == |n.slots| == 4 && Distinct(n.keys, n.num)
    ensures forall a :: 0 <= a < n.num ==> Find(n, n.keys[a]) == n.slots[a] != 0
    ensures |Edges(Kids(n))| == n.num
  {
    hide Kids;
    CountEdges(n);
    forall a | 0 <= a < n.num ensures Find(n, n.keys[a]) == n.slots[a] { SmallFindAt(n.num, n.keys, n.slots, n.keys[a]); }
  }

  /** `c2` is `c` with `k` put in at place `r` and the last entry dropped. */
  ghost predicate PutIn(c: seq<int>, k: int, r: nat, c2: seq<int>) {
    && |c| == |c2| == 4
    && (forall i :: 0 <= i < 4 && i < r ==> c2[i] == c[i])
    && (r < 4 ==> c2[r] == k)
    && (forall i :: 0 <= i < 3 && i >= r ==> c2[i + 1] == c[i])
  }

  /** Where a new key goes among the registers: before the first larger one. */
  ghost function Place4(c: seq<int>, k: int): (r: nat)
    requires |c| == 4
    ensures r <= 4 && (forall j :: 0 <= j < r ==> k >= c[j]) && (r < 4 ==> k < c[r])
  {
    if k < c[0] then 0 else if k < c[1] then 1 else if k < c[2] then 2 else if k < c[3] then 3 else 4
  }

  lemma RegistersMore(n: Node, j: nat, c: seq<int>, v: seq<Ptr>, c2: seq<int>, v2: seq<Ptr>)
    requires n.Node4? && Shape(n) && j < n.num && Registers(n, j, c, v) && |c| == |v| == 4
    requires PutIn(c, n.keys[j], Place4(c, n.keys[j]), c2) && PutIn(v, n.slots[j], Place4(c, n.keys[j]), v2)
    ensures Registers(n, j + 1, c2, v2)
  {
    hide KeyAt, InOrder, FromNode, AllIn, PutIn, Place4;
    NewKey(n, j, c, v);
    var r := Place4(c, n.keys[j]);
    OrderMore(j, c, n.keys[j], c2);
    FromMore(n, j, c, v, r, c2, v2);
    AllMore(n, j, c, r, c2);
  }

  lemma NewKey(n: Node, j: nat, c: seq<int>, v: seq<Ptr>)
    requires n.Node4? && Shape(n) && j < n.num && FromNode(n, j, c, v)
    ensures forall i :: 0 <= i < j ==> c[i] != n.keys[j]
  {
    forall i | 0 <= i < j ensures c[i] != n.keys[j] { assert Entry4(n, j, c[i], v[i]); }
  }

  lemma OrderMore(j: nat, c: seq<int>, k: Byte, c2: seq<int>)
    requires j < 4 && InOrder(j, c) && (forall i :: 0 <= i < j ==> c[i] != k) && PutIn(c, k, Place4(c, k), c2)
    ensures Place4(c, k) <= j && InOrder(j + 1, c2)
  {
    var r := Place4(c, k);
    assert c[j] == 256;
    forall a, b | 0 <= a < b < j + 1 ensures c2[a] < c2[b] {
      var oa, ob := if a < r then a else a - 1, if b < r then b else b - 1;
      assert (a == r || c2[a] == c[oa]) && (b == r || c2[b] == c[ob]);
    }
    forall i | 0 <= i < 4 ensures if i < j + 1 then 0 <= c2[i] < 256 else c2[i] == 256 {
      if i < r { assert c2[i] == c[i]; } else if i > r { assert c2[i] == c[i - 1]; }
    }
  }

  lemma FromMore(n: Node, j: nat, c: seq<int>, v: seq<Ptr>, r: nat, c2: seq<int>, v2: seq<Ptr>)
    requires n.Node4? && Shape(n) && j < n.num && r <= j && FromNode(n, j, c, v)
    requires PutIn(c, n.keys[j], r, c2) && PutIn(v, n.slots[j], r, v2)
    ensures FromNode(n, j + 1, c2, v2)
  {
    forall i | 0 <= i < j + 1 ensures Entry4(n, j + 1, c2[i], v2[i]) {
      if i == r {
        assert n.keys[j] == c2[i] && n.slots[j] == v2[i];
      } else {
        var o := if i < r then i else i - 1;
        assert c2[i] == c[o] && v2[i] == v[o] && Entry4(n, j, c[o], v[o]);
        var a :| 0 <= a < j && n.keys[a] == c[o] && n.slots[a] == v[o];
      }
    }
  }

  lemma AllMore(n: Node, j: nat, c: seq<int>, r: nat, c2: seq<int>)
    requires n.Node4? && Shape(n) && j < n.num && r <= j && InOrder(j, c) && AllIn(n, j, c) && PutIn(c, n.keys[j], r, c2)
    ensures AllIn(n, j + 1, c2)
  {
    forall a | 0 <= a < j + 1 ensures n.keys[a] in c2 {
      if a == j {
        assert c2[r] == n.keys[a];
      } else {
        var o :| 0 <= o < 4 && c[o] == n.keys[a];
        assert o < j;
        assert if o < r then c2[o] == n.keys[a] else c2[o + 1] == n.keys[a];
      }
    }
  }

  lemma RegistersNth(n: Node, i: nat, c: seq<int>, v: seq<Ptr>)
    requires n.Node4? && Shape(n) && i < n.num == |Edges(Kids(n))| && Registers(n, n.num, c, v)
    requires forall a :: 0 <= a < n.num ==> Find(n, n.keys[a]) == n.slots[a] != 0
    ensures 0 <= c[i] < 256 && Nth(n, i) == Some((v[i], c[i]))
  {
    hide Kids, EdgesFrom, Find;
    var es := Edges(Kids(n));
    EdgesAre(Kids(n), 0);
    var cs: seq<Byte> := seq(n.num, j requires 0 <= j < n.num => c[j]);
    forall e | e in cs ensures e in es {
      var j :| 0 <= j < n.num && cs[j] == e;
      assert Entry4(n, n.num, c[j], v[j]);
      KidsAre(n, e);
    }
    AscendingSame(cs, es);
    assert Entry4(n, n.num, c[i], v[i]);
    KidsAre(n, c[i]);
  }

  /** Ascending sequences of the same length, one inside the other, are the same. */
  lemma {:induction false} AscendingSame(a: seq<Byte>, b: seq<Byte>)
    requires Ascending(a) && Ascending(b) && |a| == |b| && forall e :: e in a ==> e in b
    ensures a == b
  {
    if a != [] {
      var n := |a| - 1;
      AscendingAt(a, b, n);
      var a2, b2 := a[..n], b[..n];
      forall e | e in a2 ensures e in b2 {
        var j :| 0 <= j < n && a[j] == e;
        assert a[j] in b;
        var i :| 0 <= i <= n && b[i] == e;
        assert a[j] < a[n];
      }
      AscendingSame(a2, b2);
      assert a == a2 + [a[n]] && b == b2 + [b[n]];
    }
  }

  /** The positions of an ascending sequence inside another grow at least as fast. */
  lemma {:induction false} AscendingAt(a: seq<Byte>, b: seq<Byte>, j: nat)
    requires Ascending(a) && Ascending(b) && |a| == |b| && (forall e :: e in a ==> e in b) && j < |a|
    ensures exists i :: j <= i < |b| && b[i] == a[j]
    ensures j == |a| - 1 ==> a[j] == b[j]
  {
    assert a[j] in b;
    var i :| 0 <= i < |b| && b[i] == a[j];
    if j > 0 {
      AscendingAt(a, b, j - 1);
      var h :| j - 1 <= h < |b| && b[h] == a[j - 1];
      assert a[j - 1] < a[j];
    }
  }

  method Nth16(n: Node, i: nat) returns (child: Ptr, kb: Byte)
    requires Tidy(n) && n.Node16? && i < n.num
    ensures Shape(n) && Nth(n, i) == Some((child, kb))
  {
    hide Nth, Kids, Tidy, KeyAt, SmallFind, Below, Shape, Edges;
    CountEdges(n);
    TidyKeys(n);
    child, kb := 0, 0;
    ghost var es: seq<Byte> := [];
    BelowStart(Kids(n));
    var count: nat, b: nat := 0, 0;
    while b < 256
      invariant b <= 256 && count == |es| <= i && Below(es, Kids(n), b)
    {
      BelowStep(es, Kids(n), b);
      KidsAre(n, b);
      var j := 0;
      while j < n.num
        invariant j <= n.num && count <= i
        invariant count == |es| + if exists a :: 0 <= a < j && n.keys[a] == b then 1 else 0
      {
        if n.keys[j] == b {
          if count == i {
            NthHere(n, es, b, i);
            return n.slots[j], b;
          }
          count := count + 1;
        }
        j := j + 1;
      }
      if b in Kids(n) { es := es + [b]; }
      b := b + 1;
    }
    BelowEnd(es, Kids(n));
  }

  lemma TidyKeys(n: Node)
    requires Tidy(n) && Small(n)
    ensures Shape(n) && n.num <= |n.keys| == |n.slots| && Distinct(n.keys, n.num)
    ensures forall a :: 0 <= a < n.num ==> n.keys[a] in Kids(n) && Kids(n)[n.keys[a]] == n.slots[a]
    ensures forall b: Byte :: b in Kids(n) ==> exists a :: 0 <= a < n.num && n.keys[a] == b
  {
    hide Kids;
    forall a | 0 <= a < n.num ensures n.keys[a] in Kids(n) && Kids(n)[n.keys[a]] == n.slots[a] {
      SmallFindAt(n.num, n.keys, n.slots, n.keys[a]);
      KidsAre(n, n.keys[a]);
    }
    forall b: Byte | b in Kids(n) ensures exists a :: 0 <= a < n.num && n.keys[a] == b {
      KidsAre(n, b);
      SmallFindAt(n.num, n.keys, n.slots, b);
    }
  }

  method NthLarge(n: Node, i: nat) returns (child: Ptr, kb: Byte)
    requires Tidy(n) && (n.Node48? || n.Node256?) && i < n.num
    ensures Shape(n) && Nth(n, i) == Some((child, kb))
  {
    hide Nth, Kids, Tidy, Below, Edges;
    CountEdges(n);
    TidyTable(n);
    child, kb := 0, 0;
    ghost var es: seq<Byte> := [];
    BelowStart(Kids(n));
    var count: nat, b: nat := 0, 0;
    while b < 256
      invariant b <= 256 && count == |es| <= i && Below(es, Kids(n), b)
    {
      BelowStep(es, Kids(n), b);
      KidsAre(n, b);
      var used := if n.Node48? then n.index[b] != 0 else n.slots[b] != 0;
      if used {
        if count == i {
          NthHere(n, es, b, i);
          return if n.Node48? then n.slots[n.index[b] - 1] else n.slots[b], b;
        }
        count := count + 1;
        es := es + [b];
      }
      b := b + 1;
    }
    BelowEnd(es, Kids(n));
  }

  lemma TidyTable(n: Node)
    requires Tidy(n) && (n.Node48? || n.Node256?)
    ensures Shape(n) && (n.Node48? ==> forall b: Byte :: n.index[b] != 0 ==> Find(n, b) != 0)
  {
    hide Kids;
  }

  /** The child on the i-th smallest edge, or nothing when there are fewer. */
  method NthChild(n: Node, i: nat) returns (r: Option<(Ptr, Byte)>)
    requires Tidy(n) && !n.LeafNode?
    ensures Shape(n) && r == Nth(n, i)
  {
    hide Kids, Tidy, Edges, Shape;
    CountEdges(n);
    if i >= n.num {
      return None;
    }
    var child, kb;
    if n.Node4? {
      child, kb := Nth4(n, i);
    } else if n.Node16? {
      child, kb := Nth16(n, i);
    } else {
      child, kb := NthLarge(n, i);
    }
    r := Some((child, kb));
  }
}
