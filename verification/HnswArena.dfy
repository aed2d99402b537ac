/** The node arena of the vector index: fixed slots, a stack of free slots, and a generation per slot
    that makes the handles of a freed node stale. */
module HnswArena {

  const INT32_MAX := 0x7FFF_FFFF
  const INT32_MIN := -0x8000_0000

  const HNSW_MAX_LAYERS := 4
  const HNSW_NEIGHBOR_SLOTS := 80

  datatype Result<T> = Ok(value: T) | OutOfMemory | StaleHandle

  datatype Handle = Handle(slot: nat, gen: int)

  /** One node: the neighbour counts of its layers, all its neighbour handles, and its vector. */
  datatype HNode = HNode(layer: int, num: seq<nat>, handles: seq<Handle>, vec: int)

  /** A node as allocation leaves it: all bytes zero. */
  function ZeroNode(): HNode {
    HNode(0, seq(HNSW_MAX_LAYERS, _ => 0), seq(HNSW_NEIGHBOR_SLOTS, _ => Handle(0, 0)), 0)
  }

  /** The bytes of a node: its layer, four counts, 80 handles, its vector. */
  ghost predicate AllZero(n: HNode) {
    && n.layer == 0 && n.vec == 0 && n.num == [0, 0, 0, 0]
    && |n.handles| == 80 && forall i :: 0 <= i < 80 ==> n.handles[i].slot == 0 && n.handles[i].gen == 0
  }

  // ---------- Generations ----------

  /** The generation after a free: one more in 32 bits, skipping 0. */
  function NextGen(g: int): int {
    var n := if g == INT32_MAX then INT32_MIN else g + 1;
    if n == 0 then 1 else n
  }

  ghost predicate IsGen(g: int) {
    INT32_MIN <= g <= INT32_MAX && g != 0
  }

  const GENERATIONS := 0xFFFF_FFFF

  /** Generations in the order in which frees run through them, counted from 0. */
  ghost function Rank(g: int): nat
    requires IsGen(g)
  {
    if g > 0 then g - 1 else g + GENERATIONS
  }

  ghost function GenAfter(g: int, frees: nat): int {
    if frees == 0 then g else NextGen(GenAfter(g, frees - 1))
  }

  lemma {:induction false} GenRank(g: int, frees: nat)
    requires IsGen(g)
    ensures IsGen(GenAfter(g, frees)) && Rank(GenAfter(g, frees)) == (Rank(g) + frees) % GENERATIONS
  {
    if frees > 0 {
      GenRank(g, frees - 1);
      ModNext(Rank(g) + frees - 1);
    }
  }

  lemma ModNext(n: nat)
    ensures (n + 1) % GENERATIONS == if n % GENERATIONS == GENERATIONS - 1 then 0 else n % GENERATIONS + 1
  {
  }

  /** A handle of a freed slot resolves again exactly after every full round of generations. */
  lemma StaleUntilWrap(g: int, frees: nat)
    requires IsGen(g)
    ensures GenAfter(g, frees) == g <==> frees % GENERATIONS == 0
  {
    GenRank(g, frees);
    ModSame(Rank(g), frees);
  }

  lemma ModSame(r: nat, n: nat)
    requires r < GENERATIONS
    ensures (r + n) % GENERATIONS == r <==> n % GENERATIONS == 0
  {
    var q, m := n / GENERATIONS, n % GENERATIONS;
    assert n == q * GENERATIONS + m;
    if r + m < GENERATIONS {
      ModIs(r + n, q, r + m);
    } else {
      ModIs(r + n, q + 1, r + m - GENERATIONS);
    }
  }

  lemma ModIs(x: nat, q: nat, m: nat)
    requires x == q * GENERATIONS + m && m < GENERATIONS
    ensures x % GENERATIONS == m
  {
  }

  /** Frees ask for a positive generation. From generation `g` a slot can be freed until its generation has
      left the positive numbers, no more often; and none of its generations up to then comes twice. */
  lemma FreesRunOut(g: int, n: nat)
    requires 0 < g < 0x8000_0000
    ensures (forall i: nat :: i < n ==> GenAfter(g, i) > 0) <==> n <= 0x8000_0000 - g
    ensures n <= 0x8000_0000 - g ==> forall i: nat, j: nat :: i < j <= n ==> GenAfter(g, i) != GenAfter(g, j)
  {
    hide NextGen;
    var last := INT32_MAX - g;
    forall i: nat | i <= last + 1 ensures GenAfter(g, i) == if i <= last then g + i else INT32_MIN { GenCounts(g, i); }
    if n > last + 1 {
      assert GenAfter(g, last + 1) < 0;
    }
  }

  lemma {:induction false} GenCounts(g: int, n: nat)
    requires 0 < g <= INT32_MAX && n <= INT32_MAX - g + 1
    ensures GenAfter(g, n) == if n <= INT32_MAX - g then g + n else INT32_MIN
  {
    if n > 0 { GenCounts(g, n - 1); }
  }

  // ---------- The arena as a value ----------

  /** The slots that are allocated, the free stack, and the generations. */
  datatype Slots = Slots(gens: seq<int>, free: seq<nat>)

  ghost predicate Resolves(gens: seq<int>, h: Handle) {
    h.gen != 0 && h.slot < |gens| && gens[h.slot] == h.gen
  }

  ghost predicate NoTwice(s: seq<nat>) {
    forall i, j :: 0 <= i < j < |s| ==> s[i] != s[j]
  }

  ghost predicate SlotsOK(a: Slots) {
    && (forall i :: 0 <= i < |a.gens| ==> a.gens[i] == INT32_MIN || 0 < a.gens[i] <= INT32_MAX)
    && (forall i :: 0 <= i < |a.free| ==> a.free[i] < |a.gens|)
    && NoTwice(a.free)
  }

  /** The handles of allocated nodes. */
  ghost predicate Live(a: Slots, h: Handle) {
    Resolves(a.gens, h) && h.slot !in a.free
  }

  /** A handle that was never issued but names a free slot with its next generation. */
  ghost predicate Forged(a: Slots, h: Handle) {
    Resolves(a.gens, h) && h.slot in a.free
  }

  ghost function Alloc(a: Slots): (Handle, Slots)
    requires SlotsOK(a) && a.free != []
  {
    var slot := a.free[|a.free| - 1];
    (Handle(slot, a.gens[slot]), a.(free := a.free[..|a.free| - 1]))
  }

  ghost function Free(a: Slots, h: Handle): Slots
    requires Resolves(a.gens, h)
  {
    Slots(a.gens[h.slot := NextGen(h.gen)], a.free + [h.slot])
  }

  /** What every handle that was ever issued is: the name of a slot, live or stale. */
  ghost predicate Honest(a: Slots, h: Handle) {
    h.slot < |a.gens| && !Forged(a, h)
  }

  /** An honest handle is live exactly when it resolves. */
  lemma LiveHonest(a: Slots, h: Handle)
    ensures Live(a, h) <==> Resolves(a.gens, h) && Honest(a, h)
  {
  }

  /** Allocation issues a handle that was not live, for a slot no live handle names. */
  lemma AllocFresh(a: Slots, h: Handle)
    requires SlotsOK(a) && a.free != []
    ensures var (n, b) := Alloc(a);
            && SlotsOK(b) && Live(b, n) && !Live(a, n)
            && (Live(b, h) <==> Live(a, h) || h == n)
            && (Live(a, h) ==> h.slot != n.slot)
  {
    var (n, b) := Alloc(a);
    assert a.free == b.free + [n.slot];
    assert n.slot !in b.free;
  }

  /** Freeing a live handle ends it and no other. */
  lemma FreeEnds(a: Slots, h: Handle, o: Handle)
    requires SlotsOK(a) && Live(a, h) && 0 < h.gen
    ensures SlotsOK(Free(a, h))
    ensures Live(Free(a, h), o) <==> Live(a, o) && o != h
    ensures !Resolves(Free(a, h).gens, h)
  {
  }

  /** The slot freed last is the next one issued, under its next generation. */
  lemma FreedNext(a: Slots, h: Handle)
    requires SlotsOK(a) && Live(a, h) && 0 < h.gen
    ensures SlotsOK(Free(a, h)) && Free(a, h).free != []
    ensures Alloc(Free(a, h)).0 == Handle(h.slot, if h.gen == 0x7FFF_FFFF then -0x8000_0000 else h.gen + 1)
    ensures Alloc(Free(a, h)).1.free == a.free
  {
    FreeEnds(a, h, h);
    assert a.gens[h.slot] == h.gen;
  }

  /** Freeing keeps the free stack without repetition exactly when the handle was not forged. */
  lemma FreeKeeps(a: Slots, h: Handle)
    requires SlotsOK(a) && Resolves(a.gens, h) && 0 < h.gen
    ensures SlotsOK(Free(a, h)) <==> !Forged(a, h)
  {
    if h.slot in a.free {
      var i :| 0 <= i < |a.free| && a.free[i] == h.slot;
      assert Free(a, h).free[i] == Free(a, h).free[|a.free|];
    } else {
      FreeEnds(a, h, h);
    }
  }

  // ---------- Every run over issued handles ----------

  datatype Op = AllocOp | FreeOp(h: Handle)

  /** The arena, the handles issued so far, and those freed so far. */
  datatype History = History(a: Slots, issued: set<Handle>, freed: set<Handle>)

  ghost function Begin(capacity: nat): History {
    History(Slots(seq(capacity, _ => 1), seq(capacity, i => i)), {}, {})
  }

  /** One call: an allocation, or a free of a handle that was issued at some time. Calls that fail change nothing. */
  ghost function Call(s: History, op: Op): History
    requires SlotsOK(s.a)
  {
    match op
    case AllocOp =>
      if s.a.free == [] then s
      else var (h, a) := Alloc(s.a); s.(a := a, issued := s.issued + {h})
    case FreeOp(h) =>
      if h in s.issued && h.gen > 0 && Resolves(s.a.gens, h) then s.(a := Free(s.a, h), freed := s.freed + {h}) else s
  }

  ghost predicate HistoryOK(s: History) {
    && SlotsOK(s.a)
    && (forall h :: h in s.freed ==> h in s.issued && 0 < h.gen && h.slot < |s.a.gens| && !Resolves(s.a.gens, h) && Past(s.a.gens[h.slot], h.gen))
    && (forall h :: h in s.issued && h !in s.freed <==> Live(s.a, h))
  }

  /** The slot's generation `now` is beyond `g` and will not come back to it. */
  ghost predicate Past(now: int, g: int) {
    now == INT32_MIN || now > g
  }

  lemma BeginOK(capacity: nat)
    ensures HistoryOK(Begin(capacity))
  {
    var a := Begin(capacity).a;
    forall h ensures !Live(a, h) {
      if h.slot < capacity { assert a.free[h.slot] == h.slot; }
    }
  }

  lemma CallOK(s: History, op: Op)
    requires HistoryOK(s)
    ensures HistoryOK(Call(s, op)) && |Call(s, op).a.gens| == |s.a.gens|
    ensures s.freed <= Call(s, op).freed
  {
    match op
    case AllocOp =>
      if s.a.free != [] {
        var (n, a) := Alloc(s.a);
        forall h ensures Live(a, h) <==> Live(s.a, h) || h == n { AllocFresh(s.a, h); }
        AllocFresh(s.a, n);
      }
    case FreeOp(h) =>
      if h in s.issued && h.gen > 0 && Resolves(s.a.gens, h) {
        FreedNow(s, h);
      }
  }

  /** What a call does: with a free slot an allocation issues one handle that was not live, and a free of a live
      handle that frees may take ends it. */
  lemma CallDone(s: History, h: Handle)
    requires HistoryOK(s)
    ensures s.a.free != [] ==>
              exists n: Handle :: !Live(s.a, n) && Live(Call(s, AllocOp).a, n) && Call(s, AllocOp).issued == s.issued + {n}
    ensures Live(s.a, h) && 0 < h.gen ==> !Live(Call(s, FreeOp(h)).a, h) && h in Call(s, FreeOp(h)).freed
  {
    if s.a.free != [] {
      AllocFresh(s.a, h);
      var n := Alloc(s.a).0;
      assert !Live(s.a, n) && Live(Call(s, AllocOp).a, n);
    }
    if Live(s.a, h) && 0 < h.gen { FreeEnds(s.a, h, h); }
  }

  lemma FreedNow(s: History, h: Handle)
    requires HistoryOK(s) && h in s.issued && h.gen > 0 && Resolves(s.a.gens, h)
    ensures HistoryOK(s.(a := Free(s.a, h), freed := s.freed + {h}))
  {
    assert Live(s.a, h);
    forall o ensures Live(Free(s.a, h), o) <==> Live(s.a, o) && o != h { FreeEnds(s.a, h, o); }
    FreeEnds(s.a, h, h);
  }

  ghost function RunCalls(capacity: nat, ops: seq<Op>): (s: History)
    ensures HistoryOK(s) && |s.a.gens| == capacity
  {
    BeginOK(capacity);
    if ops == [] then Begin(capacity)
    else
      CallOK(RunCalls(capacity, ops[..|ops| - 1]), ops[|ops| - 1]);
      Call(RunCalls(capacity, ops[..|ops| - 1]), ops[|ops| - 1])
  }

  /** Over every run of calls with issued handles: live handles name distinct slots, free slots are listed
      once and are nobody's, the two together are all slots, and no freed handle resolves again. */
  lemma ArenaSafe(capacity: nat, ops: seq<Op>)
    ensures var s := RunCalls(capacity, ops);
            && (forall h, o :: Live(s.a, h) && Live(s.a, o) && h.slot == o.slot ==> h == o)
            && (forall h :: h in s.issued && h !in s.freed <==> Live(s.a, h))
            && (forall h :: h in s.freed ==> !Resolves(s.a.gens, h))
            && (forall h :: h in s.issued ==> Honest(s.a, h))
            && NoTwice(s.a.free) && (forall i :: 0 <= i < capacity ==> i in s.a.free || Live(s.a, Handle(i, s.a.gens[i])))
  {
    var s := RunCalls(capacity, ops);
    forall h | h in s.issued ensures Honest(s.a, h) {
      assert h in s.freed || Live(s.a, h);
    }
  }

  // ---------- The arena in memory ----------

  class Arena {
    const capacity: nat
    const nodes: array<HNode>
    const gens: array<int>
    const freeBuf: array<nat>
    var freeTop: nat
    var used: nat

    ghost predicate Valid()
      reads this, gens, freeBuf
    {
      && nodes.Length == gens.Length == freeBuf.Length == capacity
      && freeTop <= capacity && used + freeTop == capacity && SlotsOK(View())
    }

    ghost function View(): Slots
      reads this, gens, freeBuf
      requires freeTop <= freeBuf.Length
    {
      Slots(gens[..], freeBuf[..freeTop])
    }

    constructor (capacity: nat)
      requires capacity >= 1
      ensures Valid() && fresh(nodes) && fresh(gens) && fresh(freeBuf) && this.capacity == capacity
      ensures (forall i :: 0 <= i < capacity ==> gens[i] == 1 && freeBuf[i] == i) && freeTop == capacity
      ensures View() == Begin(capacity).a && used == 0 && forall i :: 0 <= i < capacity ==> nodes[i] == ZeroNode()
    {
      this.capacity := capacity;
      nodes := new HNode[capacity](_ => ZeroNode());
      var g := new int[capacity](_ => 1);
      var f := new nat[capacity](i => i);
      gens, freeBuf, freeTop, used := g, f, capacity, 0;
      new;
      assert gens[..] == Begin(capacity).a.gens && freeBuf[..freeTop] == Begin(capacity).a.free;
    }

    /** The slot on top of the free stack, zeroed, with its generation. */
    method AllocNode() returns (r: Result<Handle>)
      requires Valid()
      modifies this`freeTop, this`used, nodes
      ensures Valid()
      ensures old(freeTop) == 0 ==> r == OutOfMemory && View() == old(View()) && nodes[..] == old(nodes[..]) && used == old(used)
      ensures old(freeTop) > 0 ==> old(View()).free != [] && r == Ok(Alloc(old(View())).0) && View() == Alloc(old(View())).1
      ensures old(freeTop) > 0 ==> used == old(used) + 1 && r.value.slot < capacity && nodes[..] == old(nodes[..])[r.value.slot := ZeroNode()]
      ensures old(freeTop) > 0 ==> AllZero(nodes[r.value.slot])
    {
      if freeTop == 0 {
        return OutOfMemory;
      }
      AllocFresh(View(), Handle(0, 0));
      freeTop := freeTop - 1;
      var slot := freeBuf[freeTop];
      used := used + 1;
      nodes[slot] := ZeroNode();
      r := Ok(Handle(slot, gens[slot]));
    }

    /** Ends the handle's generation and puts its slot back. A forged handle is outside the caller's duty:
        see FreeKeeps for why. */
    method FreeNode(h: Handle) returns (r: Result<()>)
      requires Valid() && h.gen > 0 && !Forged(View(), h)
      modifies this`freeTop, this`used, gens, freeBuf
      ensures Valid()
      ensures old(Resolves(gens[..], h)) ==> r.Ok? && View() == Free(old(View()), h) && used == old(used) - 1
      ensures !old(Resolves(gens[..], h)) ==> r == StaleHandle && View() == old(View()) && used == old(used)
    {
      if h.slot >= capacity {
        return StaleHandle;
      }
      if h.gen != gens[h.slot] {
        return StaleHandle;
      }
      FreeRoom(View(), h);
      FreeEnds(View(), h, h);
      gens[h.slot] := NextGen(gens[h.slot]);
      freeBuf[freeTop] := h.slot;
      freeTop := freeTop + 1;
      if used > 0 {
        used := used - 1;
      }
      r := Ok(());
      assert View() == Free(old(View()), h);
    }

    /** The slot of a handle, unless it is stale. */
    method GetNode(h: Handle) returns (r: Result<nat>)
      requires Valid()
      ensures r == if Resolves(gens[..], h) then Ok(h.slot) else StaleHandle
    {
      if h.gen == 0 {
        return StaleHandle;
      }
      if h.slot >= capacity {
        return StaleHandle;
      }
      if h.gen != gens[h.slot] {
        return StaleHandle;
      }
      r := Ok(h.slot);
    }
  }

  /** While a slot is allocated the free stack is not full. */
  lemma FreeRoom(a: Slots, h: Handle)
    requires SlotsOK(a) && Live(a, h)
    ensures |a.free| < |a.gens|
  {
    BelowIs(|a.gens|);
    DistinctFit(a.free, Below(|a.gens|) - {h.slot});
  }

  ghost function Below(n: nat): set<nat> {
    if n == 0 then {} else Below(n - 1) + {n - 1}
  }

  lemma {:induction false} BelowIs(n: nat)
    ensures |Below(n)| == n && forall i :: i in Below(n) <==> 0 <= i < n
  {
    if n > 0 { BelowIs(n - 1); }
  }

  lemma {:induction false} DistinctFit(s: seq<nat>, t: set<nat>)
    requires NoTwice(s) && forall i :: 0 <= i < |s| ==> s[i] in t
    ensures |s| <= |t|
  {
    if s != [] {
      var n := |s| - 1;
      DistinctFit(s[..n], t - {s[n]});
    }
  }
}
