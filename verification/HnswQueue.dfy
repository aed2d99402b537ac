/** The candidate queue of the vector index: a binary heap in a growing array, nearest first or
    furthest first. Distances are totally ordered. */
module HnswQueue {

  datatype Cand = Cand(dist: real, slot: nat, gen: int)

  /** Whether `a` must stand above `b` in the heap. */
  predicate Above(isMax: bool, a: Cand, b: Cand) {
    if isMax then a.dist > b.dist else a.dist < b.dist
  }

  function Parent(i: nat): nat
    requires i > 0
  {
    (i - 1) / 2
  }

  ghost predicate Heap(isMax: bool, s: seq<Cand>) {
    forall i :: 1 <= i < |s| ==> !Above(isMax, s[i], s[Parent(i)])
  }

  /** A heap but for `at`, which may belong further up. */
  ghost predicate HeapUp(isMax: bool, s: seq<Cand>, at: nat) {
    && (forall i :: 1 <= i < |s| && i != at ==> !Above(isMax, s[i], s[Parent(i)]))
    && (0 < at < |s| ==> forall i :: 1 <= i < |s| && Parent(i) == at ==> !Above(isMax, s[i], s[Parent(at)]))
  }

  /** A heap but for `at`, which may belong further down. */
  ghost predicate HeapDown(isMax: bool, s: seq<Cand>, at: nat) {
    && (forall i :: 1 <= i < |s| && Parent(i) != at ==> !Above(isMax, s[i], s[Parent(i)]))
    && (0 < at < |s| ==> forall i :: 1 <= i < |s| && Parent(i) == at ==> !Above(isMax, s[i], s[Parent(at)]))
  }

  function Swapped(s: seq<Cand>, i: nat, j: nat): seq<Cand>
    requires i < |s| && j < |s|
  {
    s[i := s[j]][j := s[i]]
  }

  lemma SwappedItems(s: seq<Cand>, i: nat, j: nat)
    requires i < |s| && j < |s|
    ensures multiset(Swapped(s, i, j)) == multiset(s)
  {
  }

  /** The root of a heap: nothing stands above it. */
  lemma {:induction false} RootIsTop(isMax: bool, s: seq<Cand>, i: nat)
    requires Heap(isMax, s) && i < |s|
    ensures !Above(isMax, s[i], s[0])
  {
    if i > 0 {
      RootIsTop(isMax, s, Parent(i));
      assert !Above(isMax, s[i], s[Parent(i)]);
    }
  }

  lemma UpStep(isMax: bool, s: seq<Cand>, at: nat)
    requires 0 < at < |s| && HeapUp(isMax, s, at) && Above(isMax, s[at], s[Parent(at)])
    ensures HeapUp(isMax, Swapped(s, at, Parent(at)), Parent(at))
  {
    var p := Parent(at);
    var g := Swapped(s, at, p);
    forall i | 1 <= i < |g| && i != p ensures !Above(isMax, g[i], g[Parent(i)]) {
      if i != at { assert !Above(isMax, s[i], s[Parent(i)]); }
    }
    if p > 0 {
      assert !Above(isMax, s[p], s[Parent(p)]);
      forall i | 1 <= i < |g| && Parent(i) == p ensures !Above(isMax, g[i], g[Parent(p)]) {
        if i != at { assert !Above(isMax, s[i], s[Parent(i)]); }
      }
    }
  }

  lemma UpDone(isMax: bool, s: seq<Cand>, at: nat)
    requires at < |s| && HeapUp(isMax, s, at) && (at == 0 || !Above(isMax, s[at], s[Parent(at)]))
    ensures Heap(isMax, s)
  {
  }

  /** The child that stands above the other, or `at` itself when neither stands above it. */
  ghost predicate Best(isMax: bool, s: seq<Cand>, at: nat, best: nat) {
    && at < |s| && best < |s|
    && (best == at || (best > 0 && Parent(best) == at && Above(isMax, s[best], s[at])))
    && (forall i :: 1 <= i < |s| && Parent(i) == at ==> !Above(isMax, s[i], s[best]))
  }

  lemma DownStep(isMax: bool, s: seq<Cand>, at: nat, best: nat)
    requires HeapDown(isMax, s, at) && Best(isMax, s, at, best) && best != at
    ensures HeapDown(isMax, Swapped(s, at, best), best)
  {
    var g := Swapped(s, at, best);
    forall i | 1 <= i < |g| && Parent(i) != best ensures !Above(isMax, g[i], g[Parent(i)]) {
      if i == at {
        assert !Above(isMax, s[best], s[Parent(at)]);
      } else if Parent(i) != at {
        assert !Above(isMax, s[i], s[Parent(i)]);
      }
    }
    forall i | 1 <= i < |g| && Parent(i) == best ensures !Above(isMax, g[i], g[Parent(best)]) {
      assert !Above(isMax, s[i], s[Parent(i)]);
    }
  }

  lemma DownDone(isMax: bool, s: seq<Cand>, at: nat)
    requires HeapDown(isMax, s, at) && (at >= |s| || Best(isMax, s, at, at))
    ensures Heap(isMax, s)
  {
  }

  lemma RootReplaced(isMax: bool, s: seq<Cand>, c: Cand)
    requires Heap(isMax, s) && s != []
    ensures HeapDown(isMax, s[0 := c], 0)
  {
    forall i | 1 <= i < |s| && Parent(i) != 0 ensures !Above(isMax, s[0 := c][i], s[0 := c][Parent(i)]) {
      assert !Above(isMax, s[i], s[Parent(i)]);
    }
  }

  lemma HeapCut(isMax: bool, s: seq<Cand>, n: nat)
    requires Heap(isMax, s) && n <= |s|
    ensures Heap(isMax, s[..n])
  {
    forall i | 1 <= i < n ensures !Above(isMax, s[..n][i], s[..n][Parent(i)]) {
      assert !Above(isMax, s[i], s[Parent(i)]);
    }
  }

  lemma HeapMore(isMax: bool, s: seq<Cand>, c: Cand)
    requires Heap(isMax, s)
    ensures HeapUp(isMax, s + [c], |s|)
  {
    forall i | 1 <= i < |s| ensures !Above(isMax, (s + [c])[i], (s + [c])[Parent(i)]) {
      assert !Above(isMax, s[i], s[Parent(i)]);
    }
  }

  lemma LastOut(s: seq<Cand>)
    requires s != []
    ensures var n := |s| - 1; multiset(s) == multiset(s[..n]) + multiset{s[n]}
  {
    var n := |s| - 1;
    assert s == s[..n] + [s[n]];
  }

  lemma RootOut(s: seq<Cand>)
    requires |s| > 1
    ensures var n := |s| - 1; multiset(s[..n][0 := s[n]]) == multiset(s) - multiset{s[0]}
  {
    var n := |s| - 1;
    LastOut(s);
    var t := s[..n];
    assert multiset(t[0 := s[n]]) == multiset(t) - multiset{t[0]} + multiset{s[n]};
  }

  ghost function MovedLast(s: seq<Cand>): seq<Cand>
    requires s != []
  {
    if |s| == 1 then [] else s[..|s| - 1][0 := s[|s| - 1]]
  }

  lemma PopItems(isMax: bool, s: seq<Cand>)
    requires Heap(isMax, s) && s != []
    ensures HeapDown(isMax, MovedLast(s), 0) && multiset(MovedLast(s)) == multiset(s) - multiset{s[0]}
  {
    hide Heap, HeapDown;
    if |s| == 1 {
      LastOut(s);
      RootReplacedNone(isMax);
    } else {
      HeapCut(isMax, s, |s| - 1);
      RootOut(s);
      RootReplaced(isMax, s[..|s| - 1], s[|s| - 1]);
    }
  }

  lemma RootReplacedNone(isMax: bool)
    ensures HeapDown(isMax, [], 0)
  {
  }

  class Pq {
    var elems: array<Cand>
    var size: nat
    const isMax: bool

    ghost predicate Valid()
      reads this, elems
    {
      0 < elems.Length && size <= elems.Length && Heap(isMax, Items())
    }

    ghost function Items(): seq<Cand>
      reads this, elems
      requires size <= elems.Length
    {
      elems[..size]
    }

    constructor (capacity: nat, isMax: bool)
      requires capacity > 0
      ensures Valid() && fresh(elems) && this.isMax == isMax && Items() == []
    {
      elems := new Cand[capacity](_ => Cand(0.0, 0, 0));
      size := 0;
      this.isMax := isMax;
    }

    /** Twice the capacity, the same candidates. */
    method Grow()
      requires Valid()
      modifies this`elems
      ensures Valid() && fresh(elems) && elems.Length == 2 * old(elems.Length) && Items() == old(Items())
    {
      var big := new Cand[elems.Length * 2](_ => Cand(0.0, 0, 0));
      var i := 0;
      while i < size
        invariant 0 <= i <= size && elems == old(elems) && big[..i] == elems[..i]
      {
        big[i] := elems[i];
        i := i + 1;
      }
      assert big[..size] == elems[..size];
      elems := big;
    }

    method SiftUp(index: nat)
      requires index < size <= elems.Length && HeapUp(isMax, Items(), index)
      modifies elems
      ensures Heap(isMax, Items()) && multiset(Items()) == old(multiset(Items()))
    {
      hide HeapUp, Heap, Swapped, Above;
      var curr: nat := index;
      while curr > 0
        invariant curr < size && HeapUp(isMax, Items(), curr) && multiset(Items()) == old(multiset(Items()))
      {
        var parent := Parent(curr);
        if !Above(isMax, elems[curr], elems[parent]) {
          break;
        }
        ghost var s := Items();
        UpStep(isMax, s, curr);
        SwappedItems(s, curr, parent);
        Exchange(curr, parent);
        curr := parent;
      }
      UpDone(isMax, Items(), curr);
    }

    /** Two candidates trade places. */
    method Exchange(i: nat, j: nat)
      requires i < size <= elems.Length && j < size
      modifies elems
      ensures Items() == Swapped(old(Items()), i, j)
    {
      var temp := elems[i];
      elems[i] := elems[j];
      elems[j] := temp;
    }

    method SiftDown(index: nat)
      requires index < size <= elems.Length && HeapDown(isMax, Items(), index)
      modifies elems
      ensures Heap(isMax, Items()) && multiset(Items()) == old(multiset(Items()))
    {
      hide HeapDown, Heap, Swapped, Above, Best;
      var curr: nat := index;
      while curr < size
        invariant curr < size && HeapDown(isMax, Items(), curr) && multiset(Items()) == old(multiset(Items()))
        decreases size - curr
      {
        var best := BestOf(curr);
        if best == curr {
          break;
        }
        ghost var s := Items();
        BestBelow(isMax, s, curr, best);
        DownStep(isMax, s, curr, best);
        SwappedItems(s, curr, best);
        Exchange(curr, best);
        curr := best;
      }
      DownDone(isMax, Items(), curr);
    }

    method BestOf(curr: nat) returns (best: nat)
      requires curr < size <= elems.Length
      ensures Best(isMax, Items(), curr, best)
    {
      var left, right := curr * 2 + 1, curr * 2 + 2;
      best := curr;
      if left < size && Above(isMax, elems[left], elems[best]) {
        best := left;
      }
      if right < size && Above(isMax, elems[right], elems[best]) {
        best := right;
      }
      assert forall i :: 1 <= i < size && Parent(i) == curr ==> i == left || i == right;
    }

    method Push(c: Cand)
      requires Valid()
      modifies this, elems
      ensures Valid() && (elems == old(elems) || fresh(elems))
      ensures multiset(Items()) == old(multiset(Items())) + multiset{c} && size == old(size) + 1
    {
      hide HeapUp, Heap;
      if size >= elems.Length {
        Grow();
      }
      ghost var s := Items();
      elems[size] := c;
      size := size + 1;
      assert Items() == s + [c];
      HeapMore(isMax, s, c);
      SiftUp(size - 1);
    }

    /** The candidate at the root, with nothing above it, is taken out; nothing on an empty queue. */
    method Pop() returns (ok: bool, c: Cand)
      requires Valid()
      modifies this`size, elems
      ensures Valid() && ok == (old(size) > 0)
      ensures !ok ==> Items() == old(Items()) == []
      ensures ok ==> size == old(size) - 1 && c in old(Items()) && multiset(Items()) == old(multiset(Items())) - multiset{c}
      ensures ok ==> forall x :: x in old(Items()) ==> !Above(isMax, x, c)
    {
      hide HeapDown, Heap, Above;
      if size == 0 {
        return false, Cand(0.0, 0, 0);
      }
      ghost var s := Items();
      ok, c := true, elems[0];
      TopOf(isMax, s);
      DropLast();
      PopItems(isMax, s);
      if size > 1 {
        SiftDown(0);
      } else {
        SmallHeap(isMax, Items());
      }
    }

    /** The last candidate takes the root's place. */
    method DropLast()
      requires 0 < size <= elems.Length
      modifies this`size, elems
      ensures size == old(size) - 1 && Items() == MovedLast(old(Items()))
    {
      var last := size - 1;
      if last > 0 {
        elems[0] := elems[last];
      }
      size := last;
    }

    /** The candidate at the root, left where it is. */
    method Peek() returns (ok: bool, c: Cand)
      requires Valid()
      ensures ok == (size > 0)
      ensures ok ==> c in Items() && forall x :: x in Items() ==> !Above(isMax, x, c)
    {
      hide Heap, Above;
      if size == 0 {
        return false, Cand(0.0, 0, 0);
      }
      TopOf(isMax, Items());
      ok, c := true, elems[0];
    }
  }

  /** Nearest first, or furthest first for a max-heap. */
  ghost predicate InOrder(isMax: bool, s: seq<Cand>) {
    forall i, j :: 0 <= i < j < |s| ==> if isMax then s[j].dist <= s[i].dist else s[i].dist <= s[j].dist
  }

  /** What has been taken out is in order, and nothing left stands above any of it. */
  ghost predicate Draining(isMax: bool, s: seq<Cand>, left: multiset<Cand>) {
    InOrder(isMax, s) && forall i, y :: 0 <= i < |s| && y in left ==> !Above(isMax, y, s[i])
  }

  lemma DrainStep(isMax: bool, s: seq<Cand>, left: multiset<Cand>, c: Cand)
    requires Draining(isMax, s, left) && c in left && forall y :: y in left ==> !Above(isMax, y, c)
    ensures Draining(isMax, s + [c], left - multiset{c})
  {
    var t, rest := s + [c], left - multiset{c};
    forall y | y in rest ensures y in left {}
    forall i, y | 0 <= i < |t| && y in rest ensures !Above(isMax, y, t[i]) {
      if i < |s| { assert t[i] == s[i]; }
    }
    forall i, j | 0 <= i < j < |t| ensures if isMax then t[j].dist <= t[i].dist else t[i].dist <= t[j].dist {
      assert t[i] == s[i];
      if j < |s| { assert t[j] == s[j]; }
    }
  }

  /** Popping until the queue is empty yields all its candidates in order. */
  method Drain(q: Pq) returns (s: seq<Cand>)
    requires q.Valid()
    modifies q`size, q.elems
    ensures InOrder(q.isMax, s) && multiset(s) == old(multiset(q.Items()))
    ensures q.Valid() && q.Items() == []
  {
    hide Heap, Above, Draining;
    s := [];
    DrainStart(q.isMax, multiset(q.Items()));
    while q.size > 0
      invariant q.Valid() && multiset(s) + multiset(q.Items()) == old(multiset(q.Items()))
      invariant Draining(q.isMax, s, multiset(q.Items()))
      decreases q.size
    {
      ghost var left := multiset(q.Items());
      var ok, c := q.Pop();
      DrainStep(q.isMax, s, left, c);
      s := s + [c];
    }
    DrainEnd(q.isMax, s, multiset{});
  }

  lemma DrainStart(isMax: bool, left: multiset<Cand>)
    ensures Draining(isMax, [], left)
  {
  }

  lemma DrainEnd(isMax: bool, s: seq<Cand>, left: multiset<Cand>)
    requires Draining(isMax, s, left)
    ensures InOrder(isMax, s)
  {
  }

  lemma BestBelow(isMax: bool, s: seq<Cand>, at: nat, best: nat)
    requires Best(isMax, s, at, best) && best != at
    ensures at < best < |s|
  {
  }

  lemma TopOf(isMax: bool, s: seq<Cand>)
    requires Heap(isMax, s) && s != []
    ensures s[0] in s && forall x :: x in s ==> !Above(isMax, x, s[0])
  {
    forall x | x in s ensures !Above(isMax, x, s[0]) {
      var i :| 0 <= i < |s| && s[i] == x;
      RootIsTop(isMax, s, i);
    }
  }

  lemma SmallHeap(isMax: bool, s: seq<Cand>)
    requires |s| <= 1
    ensures Heap(isMax, s)
  {
  }
}
