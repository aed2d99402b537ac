/** The k-way merge of a compaction: sorted runs of records are merged into one, and where several runs have a
    key, the record of the last one stays. */
module Merge {
  import opened Options
  import opened Octets
  import opened Memtable

  // ---------- The order of keys ----------

  /** Byte by byte, the shorter key first. */
  predicate Below(a: Blob, b: Blob) {
    b != [] && (a == [] || a[0] < b[0] || (a[0] == b[0] && Below(a[1..], b[1..])))
  }

  lemma {:induction false} BelowTotal(a: Blob, b: Blob)
    ensures !(Below(a, b) && Below(b, a))
    ensures Below(a, b) || Below(b, a) <==> a != b
  {
    if a != [] && b != [] && a[0] == b[0] {
      BelowTotal(a[1..], b[1..]);
      assert a == [a[0]] + a[1..] && b == [b[0]] + b[1..];
    }
  }

  lemma {:induction false} BelowTransitive(a: Blob, b: Blob, c: Blob)
    requires Below(a, b) && Below(b, c)
    ensures Below(a, c)
  {
    if a != [] && b != [] && c != [] && a[0] == b[0] == c[0] {
      BelowTransitive(a[1..], b[1..], c[1..]);
    }
  }

  // ---------- Runs of records ----------

  datatype Rec = Rec(key: Blob, entry: Entry)

  ghost predicate Ascending(rs: seq<Rec>) {
    forall i, j :: 0 <= i < j < |rs| ==> Below(rs[i].key, rs[j].key)
  }

  function TableOf(rs: seq<Rec>): Table {
    if rs == [] then map[] else TableOf(rs[..|rs| - 1])[rs[|rs| - 1].key := rs[|rs| - 1].entry]
  }

  lemma {:induction false} TableHas(rs: seq<Rec>, k: Blob)
    ensures k in TableOf(rs) <==> exists i :: 0 <= i < |rs| && rs[i].key == k
    decreases |rs|
  {
    if rs != [] {
      var n := |rs| - 1;
      TableHas(rs[..n], k);
      if i :| 0 <= i < n && rs[..n][i].key == k { assert rs[i].key == k; }
      if i :| 0 <= i < |rs| && rs[i].key == k && i < n { assert rs[..n][i].key == k; }
    }
  }

  lemma {:induction false} EntryAt(rs: seq<Rec>, i: nat)
    requires Ascending(rs) && i < |rs|
    ensures rs[i].key in TableOf(rs) && TableOf(rs)[rs[i].key] == rs[i].entry
    decreases |rs|
  {
    hide Below;
    var n := |rs| - 1;
    if i < n {
      EntryAt(rs[..n], i);
      BelowTotal(rs[i].key, rs[n].key);
    }
  }

  /** The first record taken off a run. */
  lemma HeadOff(rs: seq<Rec>, k: Blob)
    requires Ascending(rs) && rs != []
    ensures Ascending(rs[1..]) && rs[0].key !in TableOf(rs[1..])
    ensures k != rs[0].key ==> (k in TableOf(rs) <==> k in TableOf(rs[1..])) && (k in TableOf(rs) ==> TableOf(rs)[k] == TableOf(rs[1..])[k])
  {
    hide Below, TableOf;
    TableHas(rs[1..], rs[0].key);
    forall i | 0 < i < |rs| ensures rs[i].key != rs[0].key { BelowTotal(rs[0].key, rs[i].key); }
    TableHas(rs, k);
    TableHas(rs[1..], k);
    if k != rs[0].key && k in TableOf(rs) {
      var i :| 0 <= i < |rs| && rs[i].key == k;
      EntryAt(rs, i);
      EntryAt(rs[1..], i - 1);
      assert rs[1..][i - 1] == rs[i];
    }
  }

  /** The runs as one table: where several have a key, the last one counts. */
  function Merged(ls: seq<seq<Rec>>): Table {
    if ls == [] then map[] else Merged(ls[..|ls| - 1]) + TableOf(ls[|ls| - 1])
  }

  lemma {:induction false} NotMerged(ls: seq<seq<Rec>>, k: Blob)
    ensures k in Merged(ls) <==> exists i :: 0 <= i < |ls| && k in TableOf(ls[i])
    decreases |ls|
  {
    hide TableOf;
    if ls != [] {
      var n := |ls| - 1;
      NotMerged(ls[..n], k);
      if i :| 0 <= i < n && k in TableOf(ls[..n][i]) { assert k in TableOf(ls[i]); }
      if i :| 0 <= i < |ls| && k in TableOf(ls[i]) && i < n { assert k in TableOf(ls[..n][i]); }
    }
  }

  lemma {:induction false} LastMerged(ls: seq<seq<Rec>>, i: nat, k: Blob)
    requires i < |ls| && k in TableOf(ls[i]) && forall j :: i < j < |ls| ==> k !in TableOf(ls[j])
    ensures k in Merged(ls) && Merged(ls)[k] == TableOf(ls[i])[k]
    decreases |ls|
  {
    hide TableOf;
    var n := |ls| - 1;
    if i < n { LastMerged(ls[..n], i, k); }
  }

  lemma {:induction false} SameMerged(ls: seq<seq<Rec>>, ms: seq<seq<Rec>>, k: Blob)
    requires |ls| == |ms| && forall i :: 0 <= i < |ls| ==> SameOn(ls[i], ms[i], k)
    ensures (k in Merged(ls) <==> k in Merged(ms)) && (k in Merged(ls) ==> Merged(ls)[k] == Merged(ms)[k])
    decreases |ls|
  {
    hide TableOf;
    if ls != [] {
      var n := |ls| - 1;
      forall i | 0 <= i < n ensures SameOn(ls[..n][i], ms[..n][i], k) { assert SameOn(ls[i], ms[i], k); }
      SameMerged(ls[..n], ms[..n], k);
      assert SameOn(ls[n], ms[n], k);
    }
  }

  ghost predicate SameOn(rs: seq<Rec>, qs: seq<Rec>, k: Blob) {
    (k in TableOf(rs) <==> k in TableOf(qs)) && (k in TableOf(rs) ==> TableOf(rs)[k] == TableOf(qs)[k])
  }

  // ---------- One record of the merge ----------

  /** The order in the heap: by key, and among equal keys the later run first. */
  ghost predicate First(ls: seq<seq<Rec>>, b: nat) {
    && b < |ls| && ls[b] != []
    && forall j :: 0 <= j < |ls| && ls[j] != [] ==>
         !Below(ls[j][0].key, ls[b][0].key) && (ls[j][0].key == ls[b][0].key ==> j <= b)
  }

  ghost predicate AllAscending(ls: seq<seq<Rec>>) {
    forall i :: 0 <= i < |ls| ==> Ascending(ls[i])
  }

  /** What is left when every run that starts with key `k` has lost its first record. */
  ghost predicate HeadsOff(ls: seq<seq<Rec>>, ms: seq<seq<Rec>>, k: Blob) {
    |ms| == |ls| && forall i :: 0 <= i < |ls| ==> ms[i] == if ls[i] != [] && ls[i][0].key == k then ls[i][1..] else ls[i]
  }

  /** The first record in the order of the heap is the least key with the entry that counts; without the records
      of that key the rest of the table is left, with greater keys only. */
  lemma MergeStep(ls: seq<seq<Rec>>, b: nat, ms: seq<seq<Rec>>)
    requires AllAscending(ls) && First(ls, b) && HeadsOff(ls, ms, ls[b][0].key)
    ensures var r := ls[b][0];
            && AllAscending(ms) && r.key !in Merged(ms) && Merged(ls) == Merged(ms)[r.key := r.entry]
            && forall k :: k in Merged(ms) ==> Below(r.key, k)
  {
    hide Merged, TableOf, Below, Ascending;
    var r := ls[b][0];
    forall i | 0 <= i < |ls| ensures Ascending(ms[i]) && r.key !in TableOf(ms[i]) { StepRun(ls, b, ms, i, r.key); }
    NotMerged(ms, r.key);
    forall k ensures (k in Merged(ls) <==> k in Merged(ms)[r.key := r.entry]) && (k in Merged(ls) ==> Merged(ls)[k] == Merged(ms)[r.key := r.entry][k]) {
      if k == r.key {
        StepFirst(ls, b);
      } else {
        forall i | 0 <= i < |ls| ensures SameOn(ls[i], ms[i], k) { StepRun(ls, b, ms, i, k); }
        SameMerged(ls, ms, k);
      }
    }
    forall k | k in Merged(ms) ensures Below(r.key, k) {
      NotMerged(ms, k);
      var i :| 0 <= i < |ms| && k in TableOf(ms[i]);
      StepRun(ls, b, ms, i, k);
    }
  }

  lemma StepRun(ls: seq<seq<Rec>>, b: nat, ms: seq<seq<Rec>>, i: nat, k: Blob)
    requires AllAscending(ls) && First(ls, b) && HeadsOff(ls, ms, ls[b][0].key) && i < |ls|
    ensures Ascending(ms[i]) && ls[b][0].key !in TableOf(ms[i])
    ensures k != ls[b][0].key ==> SameOn(ls[i], ms[i], k)
    ensures k in TableOf(ms[i]) ==> Below(ls[b][0].key, k)
  {
    hide Below, TableOf;
    var r := ls[b][0].key;
    TableHas(ms[i], k);
    TableHas(ms[i], r);
    if ls[i] != [] {
      HeadOff(ls[i], k);
      BelowTotal(ls[i][0].key, r);
      forall j | 0 <= j < |ls[i]| ensures ls[i][j].key == ls[i][0].key || Below(ls[i][0].key, ls[i][j].key) {}
      forall j | 0 <= j < |ms[i]| ensures Below(r, ms[i][j].key) {
        if ls[i][0].key != r && j > 0 { BelowTransitive(r, ls[i][0].key, ls[i][j].key); }
      }
      forall j | 0 <= j < |ms[i]| ensures ms[i][j].key != r { BelowTotal(r, ms[i][j].key); }
    }
  }

  lemma StepFirst(ls: seq<seq<Rec>>, b: nat)
    requires AllAscending(ls) && First(ls, b)
    ensures ls[b][0].key in Merged(ls) && Merged(ls)[ls[b][0].key] == ls[b][0].entry
  {
    hide Below, TableOf, Merged;
    var r := ls[b][0].key;
    EntryAt(ls[b], 0);
    forall j | b < j < |ls| ensures r !in TableOf(ls[j]) {
      TableHas(ls[j], r);
      if ls[j] != [] {
        BelowTotal(r, ls[j][0].key);
        forall x | 0 <= x < |ls[j]| ensures ls[j][x].key != r {
          if x > 0 { BelowTransitive(r, ls[j][0].key, ls[j][x].key); }
          BelowTotal(r, ls[j][x].key);
        }
      }
    }
    LastMerged(ls, b, r);
  }

  // ---------- The iterator ----------

  /** The record of run `b` stands before that of run `j` in the heap, or is the same one. */
  predicate Ahead(ls: seq<seq<Rec>>, at: seq<nat>, b: nat, j: nat)
    requires b < |ls| == |at| && j < |ls| && at[b] < |ls[b]| && at[j] < |ls[j]|
  {
    var x, y := ls[b][at[b]].key, ls[j][at[j]].key;
    b == j || Below(x, y) || (x == y && b > j)
  }

  ghost predicate Reading(ls: seq<seq<Rec>>, at: seq<nat>, heap: set<nat>) {
    && |at| == |ls| && (forall i :: 0 <= i < |ls| ==> at[i] <= |ls[i]|)
    && forall i: nat :: i in heap <==> i < |ls| && at[i] < |ls[i]|
  }

  lemma {:induction false} SomeAhead(ls: seq<seq<Rec>>, at: seq<nat>, s: set<nat>)
    requires s != {} && |at| == |ls| && forall i :: i in s ==> i < |ls| && at[i] < |ls[i]|
    ensures exists b :: b in s && forall j :: j in s ==> Ahead(ls, at, b, j)
    decreases |s|
  {
    hide Ahead;
    var x :| x in s;
    AheadEither(ls, at, x, x);
    var t := s - {x};
    if t == {} {
      assert s == {x};
    } else {
      SomeAhead(ls, at, t);
      var b :| b in t && forall j :: j in t ==> Ahead(ls, at, b, j);
      AheadEither(ls, at, b, x);
      if Ahead(ls, at, b, x) {
        assert forall j :: j in s ==> Ahead(ls, at, b, j);
      } else {
        forall j | j in s ensures Ahead(ls, at, x, j) {
          if j != x { AheadOn(ls, at, x, b, j); }
        }
      }
    }
  }

  lemma AheadEither(ls: seq<seq<Rec>>, at: seq<nat>, a: nat, b: nat)
    requires |at| == |ls| && a < |ls| && b < |ls| && at[a] < |ls[a]| && at[b] < |ls[b]|
    ensures Ahead(ls, at, a, b) || Ahead(ls, at, b, a)
  {
    hide Below;
    BelowTotal(ls[a][at[a]].key, ls[b][at[b]].key);
  }

  lemma AheadOn(ls: seq<seq<Rec>>, at: seq<nat>, a: nat, b: nat, c: nat)
    requires |at| == |ls| && a < |ls| && b < |ls| && c < |ls| && at[a] < |ls[a]| && at[b] < |ls[b]| && at[c] < |ls[c]|
    requires Ahead(ls, at, a, b) && Ahead(ls, at, b, c)
    ensures Ahead(ls, at, a, c)
  {
    hide Below;
    var x, y, z := ls[a][at[a]].key, ls[b][at[b]].key, ls[c][at[c]].key;
    if Below(x, y) && Below(y, z) { BelowTransitive(x, y, z); }
  }

  /** What every run has left, the records in the heap included. */
  ghost function Rest(ls: seq<seq<Rec>>, at: seq<nat>): (r: seq<seq<Rec>>)
    requires |at| == |ls| && forall i :: 0 <= i < |ls| ==> at[i] <= |ls[i]|
    ensures |r| == |ls|
  {
    seq(|ls|, i requires 0 <= i < |ls| => ls[i][at[i]..])
  }

  lemma AllRead(ls: seq<seq<Rec>>, at: seq<nat>)
    requires Reading(ls, at, {})
    ensures Merged(Rest(ls, at)) == map[]
  {
    hide TableOf;
    var r: seq<seq<Rec>> := Rest(ls, at);
    forall k ensures k !in Merged(r) {
      NotMerged(r, k);
      forall i | 0 <= i < |r| ensures k !in TableOf(r[i]) {
        assert i !in {} && r[i] == [];
        TableHas(r[i], k);
      }
    }
  }

  /** Iterator `i` has gone one record further since `was`, over key `k`. */
  ghost predicate Passed(ls: seq<seq<Rec>>, was: seq<nat>, at: seq<nat>, i: nat, k: Blob)
    requires i < |ls| == |was| == |at|
  {
    was[i] < |ls[i]| && at[i] == was[i] + 1 && ls[i][was[i]].key == k
  }

  /** The iterators in `todo` stand where they stood; all others have passed the key. */
  ghost predicate Underway(ls: seq<seq<Rec>>, was: seq<nat>, at: seq<nat>, k: Blob, todo: set<nat>) {
    && |was| == |at| == |ls| && (forall i :: 0 <= i < |ls| ==> was[i] <= |ls[i]|)
    && forall i: nat :: i < |ls| ==> if i in todo then at[i] == was[i] else Passed(ls, was, at, i, k)
  }

  lemma Starts(ls: seq<seq<Rec>>, at: seq<nat>, k: Blob) returns (todo: set<nat>)
    requires |at| == |ls| && forall i :: 0 <= i < |ls| ==> at[i] <= |ls[i]|
    ensures Underway(ls, at, at, k, todo)
  {
    todo := set i {:trigger at[i]} | 0 <= i < |at|;
  }

  lemma Passes(ls: seq<seq<Rec>>, was: seq<nat>, at: seq<nat>, k: Blob, todo: set<nat>, d: nat)
    requires AllAscending(ls) && Underway(ls, was, at, k, todo) && d < |ls| && at[d] < |ls[d]| && ls[d][at[d]].key == k
    ensures d in todo && Underway(ls, was, at[d := at[d] + 1], k, todo - {d})
  {
    hide Below, AllAscending;
    PassedOnce(ls, was, at, d, k);
  }

  lemma PassedOnce(ls: seq<seq<Rec>>, was: seq<nat>, at: seq<nat>, i: nat, k: Blob)
    requires AllAscending(ls) && i < |ls| == |was| == |at| && at[i] < |ls[i]| && ls[i][at[i]].key == k
    ensures !Passed(ls, was, at, i, k)
  {
    hide Below;
    if Passed(ls, was, at, i, k) { BelowTotal(ls[i][was[i]].key, ls[i][at[i]].key); }
  }

  /** Every iterator that stood on the least key has passed it, once the root shows another key. */
  lemma AllPassed(ls: seq<seq<Rec>>, was: seq<nat>, at: seq<nat>, heap: set<nat>, todo: set<nat>, b: nat, d: nat)
    requires AllAscending(ls) && |was| == |ls| && (forall i :: 0 <= i < |ls| ==> was[i] <= |ls[i]|) && Reading(ls, at, heap)
    requires First(Rest(ls, was), b) && Underway(ls, was, at, Rest(ls, was)[b][0].key, todo)
    requires heap == {} || (First(Rest(ls, at), d) && Rest(ls, at)[d][0].key != Rest(ls, was)[b][0].key)
    ensures AllAscending(Rest(ls, was)) && HeadsOff(Rest(ls, was), Rest(ls, at), Rest(ls, was)[b][0].key)
  {
    hide Below;
    var k := Rest(ls, was)[b][0].key;
    var r: seq<seq<Rec>> := Rest(ls, was);
    var q: seq<seq<Rec>> := Rest(ls, at);
    forall i | 0 <= i < |ls| ensures q[i] == if r[i] != [] && r[i][0].key == k then r[i][1..] else r[i] {
      if at[i] == was[i] && r[i] != [] && r[i][0].key == k {
        assert i in heap && q[i][0].key == k;
        LaterRoot(ls, was, at, b, d, k);
        assert false;
      }
    }
  }

  /** A root with another key has a greater one. */
  lemma LaterRoot(ls: seq<seq<Rec>>, was: seq<nat>, at: seq<nat>, b: nat, d: nat, k: Blob)
    requires AllAscending(ls) && |was| == |ls| == |at| && (forall i :: 0 <= i < |ls| ==> was[i] <= |ls[i]| && at[i] <= |ls[i]|)
    requires First(Rest(ls, was), b) && k == Rest(ls, was)[b][0].key && d < |ls| && (at[d] == was[d] || Passed(ls, was, at, d, k))
    requires First(Rest(ls, at), d) && Rest(ls, at)[d][0].key != k
    ensures forall i :: 0 <= i < |ls| && Rest(ls, at)[i] != [] ==> Rest(ls, at)[i][0].key != k
  {
    hide Below;
    var x := ls[d][at[d]].key;
    BelowTotal(k, x);
    assert Rest(ls, at)[d][0].key == x;
    if at[d] == was[d] { assert Rest(ls, was)[d] != [] && Rest(ls, was)[d][0].key == x; }
    assert Below(k, x);
  }

  lemma AheadFirst(ls: seq<seq<Rec>>, at: seq<nat>, heap: set<nat>, b: nat)
    requires Reading(ls, at, heap) && b in heap && forall j :: j in heap ==> Ahead(ls, at, b, j)
    ensures First(Rest(ls, at), b) && Rest(ls, at)[b][0] == ls[b][at[b]]
  {
    hide Below;
    var r: seq<seq<Rec>> := Rest(ls, at);
    forall j | 0 <= j < |r| && r[j] != [] ensures !Below(r[j][0].key, r[b][0].key) && (r[j][0].key == r[b][0].key ==> j <= b) {
      assert j in heap && Ahead(ls, at, b, j);
      BelowTotal(r[j][0].key, r[b][0].key);
    }
  }

  class MergeIter {
    const lists: seq<seq<Rec>>

    /** How far each file iterator has been read: the record at this place is in the heap. */
    var at: seq<nat>

    /** The iterators that have a record in the heap. */
    var heap: set<nat>

    ghost predicate Valid()
      reads this
    {
      AllAscending(lists) && Reading(lists, at, heap)
    }

    /** What is still to be merged. */
    ghost function Left(): Table
      reads this
      requires Valid()
    {
      Merged(Rest(lists, at))
    }

    constructor (lists: seq<seq<Rec>>)
      requires AllAscending(lists)
      ensures Valid() && this.lists == lists && Left() == Merged(lists)
    {
      this.lists := lists;
      at := seq(|lists|, _ => 0);
      heap := {};
      new;
      var i := 0;
      while i < |lists|
        invariant i <= |lists| && at == seq(|lists|, _ => 0)
        invariant forall j: nat :: j in heap <==> j < i && lists[j] != []
      {
        if lists[i] != [] { heap := heap + {i}; }
        i := i + 1;
      }
      assert Rest(lists, at) == lists;
    }

    /** The root of the heap. */
    method Root() returns (b: nat)
      requires Valid() && heap != {}
      ensures b in heap && First(Rest(lists, at), b)
    {
      SomeAhead(lists, at, heap);
      b :| b in heap && forall j :: j in heap ==> Ahead(lists, at, b, j);
      AheadFirst(lists, at, heap, b);
    }

    /** The root leaves the heap, and its iterator's next record, if there is one, enters. */
    method Advance(b: nat)
      requires Valid() && b in heap
      modifies this
      ensures Valid() && b < |lists| && old(at[b]) < |lists[b]| && at == old(at)[b := old(at[b]) + 1]
    {
      at := at[b := at[b] + 1];
      if at[b] == |lists[b]| { heap := heap - {b}; }
    }

    /** The next record: the least key that is left, from the last run that has it; the records of that key in the
        other runs are dropped. */
    method Next() returns (r: Option<Rec>)
      requires Valid()
      modifies this
      ensures Valid()
      ensures r == None ==> at == old(at) && old(Left()) == Left() == map[]
      ensures r.Some? ==>
                && r.value.key !in Left() && old(Left()) == Left()[r.value.key := r.value.entry]
                && forall k :: k in Left() ==> Below(r.value.key, k)
    {
      hide Below, Merged, First, AllAscending, TableOf, Underway;
      ghost var was := at;
      if heap == {} {
        AllRead(lists, at);
        return None;
      }
      var best := Root();
      var dup := best;
      var rec := lists[best][at[best]];
      ghost var todo := Starts(lists, at, rec.key);
      Passes(lists, was, at, rec.key, todo, best);
      Advance(best);
      todo := todo - {best};
      while heap != {}
        invariant Valid() && Underway(lists, was, at, rec.key, todo)
        decreases todo
      {
        dup := Root();
        if lists[dup][at[dup]].key != rec.key {
          break;
        }
        Passes(lists, was, at, rec.key, todo, dup);
        Advance(dup);
        todo := todo - {dup};
      }
      AllPassed(lists, was, at, heap, todo, best, dup);
      MergeStep(Rest(lists, was), best, Rest(lists, at));
      return Some(rec);
    }
  }

  /** A merged table without its tombstones, if there is nothing further down that they hide. */
  function Purged(t: Table, purge: bool): Table {
    map k | k in t && (purge ==> t[k].Live?) :: t[k]
  }

  lemma PurgedMore(t: Table, k: Blob, e: Entry, purge: bool)
    requires k !in t
    ensures k !in Purged(t, purge)
    ensures Purged(t[k := e], purge) == if purge && e == Tombstone then Purged(t, purge) else Purged(t, purge)[k := e]
  {
  }

  /** The loop that writes the new file: every record of the merge, in order. */
  method WriteMerged(lists: seq<seq<Rec>>, purge: bool) returns (out: seq<Rec>)
    requires AllAscending(lists)
    ensures Ascending(out) && TableOf(out) == Purged(Merged(lists), purge)
  {
    hide Below, Merged, AllAscending, Reading, TableOf, Ascending, Purged, Rest, MergeIter.Left;
    var it := new MergeIter(lists);
    out := [];
    var going := true;
    ghost var whole := Purged(Merged(lists), purge);
    NoRecords();
    while going
      invariant it.Valid() && it.lists == lists && Ascending(out)
      invariant whole == TableOf(out) + Purged(it.Left(), purge)
      invariant forall i, k :: 0 <= i < |out| && k in it.Left() ==> Below(out[i].key, k)
      invariant !going ==> it.Left() == map[]
      decreases going, |it.Left()|
    {
      ghost var left := it.Left();
      var rec := it.Next();
      if rec == None {
        going := false;
      } else {
        ghost var left2 := it.Left();
        assert rec.value.key in left;
        assert forall k :: k in left2 ==> k in left && Below(rec.value.key, k);
        PurgedMore(left2, rec.value.key, rec.value.entry, purge);
        if !(purge && rec.value.entry == Tombstone) {
          OneMore(out, rec.value, Purged(left2, purge));
          out := out + [rec.value];
        }
      }
    }
    PurgedNone(purge);
  }

  lemma NoRecords()
    ensures Ascending([]) && TableOf([]) == map[]
  {
  }

  lemma PurgedNone(purge: bool)
    ensures Purged(map[], purge) == map[]
  {
  }

  lemma OneMore(out: seq<Rec>, r: Rec, rest: Table)
    requires Ascending(out) && (forall i :: 0 <= i < |out| ==> Below(out[i].key, r.key)) && r.key !in rest
    ensures Ascending(out + [r]) && TableOf(out + [r]) + rest == TableOf(out) + rest[r.key := r.entry]
  {
    hide Below, TableOf;
    TableMore(out, r);
    MapOver(TableOf(out), r.key, r.entry, rest);
  }

  lemma TableMore(out: seq<Rec>, r: Rec)
    ensures TableOf(out + [r]) == TableOf(out)[r.key := r.entry]
  {
    assert (out + [r])[..|out|] == out;
  }

  lemma MapOver(t: Table, k: Blob, e: Entry, rest: Table)
    requires k !in rest
    ensures t[k := e] + rest == t + rest[k := e]
  {
  }
}
