/** Compaction of level 0: the files that were there when it began and the files of level 1 whose key ranges they
    meet are merged, by file number, into one new file of level 1. */
module Compaction {
  import opened Options
  import opened Memtable
  import opened Levels
  import opened Merge

  // ---------- Tables one over the other ----------

  /** The last table that has a key says what it is. */
  ghost function Overlay(ts: seq<Table>): Table {
    if ts == [] then map[] else Overlay(ts[..|ts| - 1]) + ts[|ts| - 1]
  }

  function Get(t: Table, k: Blob): Option<Entry> {
    if k in t then Some(t[k]) else None
  }

  lemma {:induction false} OverlayJoin(a: seq<Table>, b: seq<Table>)
    ensures Overlay(a + b) == Overlay(a) + Overlay(b)
    decreases |b|
  {
    if b == [] {
      assert a + b == a;
    } else {
      assert (a + b)[..|a + b| - 1] == a + b[..|b| - 1];
      OverlayJoin(a, b[..|b| - 1]);
    }
  }

  lemma {:induction false} OverlayAt(ts: seq<Table>, i: nat, k: Blob)
    requires i < |ts| && k in ts[i] && forall j :: i < j < |ts| ==> k !in ts[j]
    ensures Get(Overlay(ts), k) == Some(ts[i][k])
    decreases |ts|
  {
    if i < |ts| - 1 { OverlayAt(ts[..|ts| - 1], i, k); }
  }

  lemma {:induction false} OverlayLast(ts: seq<Table>, k: Blob) returns (i: nat)
    ensures k in Overlay(ts) ==> i < |ts| && k in ts[i] && (forall j :: i < j < |ts| ==> k !in ts[j]) && Overlay(ts)[k] == ts[i][k]
    ensures k !in Overlay(ts) ==> forall j :: 0 <= j < |ts| ==> k !in ts[j]
    decreases |ts|
  {
    i := 0;
    if ts != [] {
      var n := |ts| - 1;
      if k in ts[n] {
        i := n;
      } else {
        i := OverlayLast(ts[..n], k);
        assert forall j :: 0 <= j < n ==> ts[..n][j] == ts[j];
      }
    }
  }

  /** The merge of the files' runs is this table. */
  lemma {:induction false} MergedOverlay(ls: seq<seq<Rec>>, ts: seq<Table>)
    requires |ls| == |ts| && forall i :: 0 <= i < |ls| ==> TableOf(ls[i]) == ts[i]
    ensures Merged(ls) == Overlay(ts)
    decreases |ls|
  {
    hide TableOf;
    if ls != [] { MergedOverlay(ls[..|ls| - 1], ts[..|ts| - 1]); }
  }

  // ---------- The files of a compaction ----------

  datatype Source = Source(lvl: nat, fid: nat)

  function TableAt(d: Disk, s: Source): Table {
    if (s.lvl, s.fid) in d.files then d.files[(s.lvl, s.fid)] else map[]
  }

  /** Some key of `t` is not above some key of `u`. */
  ghost predicate Reaches(t: Table, u: Table) {
    exists a, b :: a in t && b in u && !Below(b, a)
  }

  /** The two key ranges meet: neither ends before the other begins. */
  ghost predicate Meets(t: Table, u: Table) {
    Reaches(t, u) && Reaches(u, t)
  }

  lemma SharedMeets(t: Table, u: Table, k: Blob)
    requires k in t && k in u
    ensures Meets(t, u)
  {
    BelowTotal(k, k);
  }

  /** Level 1's files whose range meets that of `u`, or the others, in order. */
  ghost function Select(d: Disk, fids: seq<nat>, u: Table, meeting: bool): (r: seq<nat>)
    ensures forall f :: f in r <==> f in fids && Meets(TableAt(d, Source(1, f)), u) == meeting
  {
    if fids == [] then []
    else
      var n := |fids| - 1;
      Select(d, fids[..n], u, meeting) + (if Meets(TableAt(d, Source(1, fids[n])), u) == meeting then [fids[n]] else [])
  }

  function Sources(lvl: nat, fids: seq<nat>): (r: seq<Source>)
    ensures |r| == |fids| && forall i :: 0 <= i < |r| ==> r[i] == Source(lvl, fids[i])
  {
    seq(|fids|, i requires 0 <= i < |fids| => Source(lvl, fids[i]))
  }

  ghost function Tables(d: Disk, ss: seq<Source>): (r: seq<Table>)
    ensures |r| == |ss| && forall i :: 0 <= i < |r| ==> r[i] == TableAt(d, ss[i])
  {
    seq(|ss|, i requires 0 <= i < |ss| => TableAt(d, ss[i]))
  }

  // ---------- In the order of file numbers ----------

  function InsertById(ss: seq<Source>, x: Source): (r: seq<Source>)
    ensures |r| == |ss| + 1
  {
    if ss == [] || ss[|ss| - 1].fid <= x.fid then ss + [x] else InsertById(ss[..|ss| - 1], x) + [ss[|ss| - 1]]
  }

  function SortById(ss: seq<Source>): (r: seq<Source>)
    ensures |r| == |ss|
  {
    if ss == [] then [] else InsertById(SortById(ss[..|ss| - 1]), ss[|ss| - 1])
  }

  ghost predicate ByNumber(ss: seq<Source>) {
    forall i, j :: 0 <= i < j < |ss| ==> ss[i].fid <= ss[j].fid
  }

  lemma {:induction false} InsertSorted(ss: seq<Source>, x: Source)
    requires ByNumber(ss)
    ensures ByNumber(InsertById(ss, x)) && forall y :: y in InsertById(ss, x) <==> y in ss || y == x
    decreases |ss|
  {
    if ss != [] && ss[|ss| - 1].fid > x.fid {
      var n := |ss| - 1;
      InsertSorted(ss[..n], x);
      assert ss == ss[..n] + [ss[n]];
      forall i | 0 <= i < n + 1 ensures InsertById(ss, x)[i].fid <= ss[n].fid {
        assert InsertById(ss[..n], x)[i] in InsertById(ss[..n], x);
      }
    }
  }

  lemma {:induction false} SortSorted(ss: seq<Source>)
    ensures ByNumber(SortById(ss)) && forall y :: y in SortById(ss) <==> y in ss
    decreases |ss|
  {
    hide InsertById, ByNumber;
    if ss == [] {
      NoneSorted();
    } else {
      var n := |ss| - 1;
      SortSorted(ss[..n]);
      InsertSorted(SortById(ss[..n]), ss[n]);
      assert ss == ss[..n] + [ss[n]];
    }
  }

  lemma NoneSorted()
    ensures ByNumber([])
  {
  }

  /** The insertion sort in place. */
  method SortFiles(a: array<Source>)
    modifies a
    ensures a[..] == SortById(old(a[..]))
  {
    hide InsertById, SortById;
    ghost var was := a[..];
    SortNone();
    var i := 1;
    if a.Length > 0 { SortOne(was[..1]); }
    while i < a.Length
      invariant a.Length > 0 ==> 1 <= i <= a.Length && a[..i] == SortById(was[..i]) && a[i..] == was[i..]
    {
      ghost var sorted := a[..i];
      assert was[..i + 1][..i] == was[..i] && was[i] == a[i..][0];
      InsertOne(a, i);
      SortMore(was, i);
      i := i + 1;
    }
    assert a[..a.Length] == a[..] && was[..a.Length] == was;
  }

  lemma SortNone()
    ensures SortById([]) == []
  {
  }

  lemma SortOne(s: seq<Source>)
    requires |s| == 1
    ensures SortById(s) == s
  {
    assert s[..0] == [];
  }

  lemma SortMore(s: seq<Source>, i: nat)
    requires i < |s|
    ensures SortById(s[..i + 1]) == InsertById(SortById(s[..i]), s[i])
  {
    assert s[..i + 1][..i] == s[..i];
  }

  /** One element moves down to its place among those before it. */
  method InsertOne(a: array<Source>, i: nat)
    requires 0 < i < a.Length
    modifies a
    ensures a[..i + 1] == InsertById(old(a[..i]), old(a[i])) && a[i + 1..] == old(a[i + 1..])
  {
    hide InsertById;
    ghost var front := a[..i];
    var key := a[i];
    var at := i;
    assert front[..i] == front;
    while at > 0 && a[at - 1].fid > key.fid
      invariant 0 <= at <= i && forall j :: 0 <= j < at ==> a[j] == front[j]
      invariant forall j :: at < j <= i ==> a[j] == front[j - 1]
      invariant forall j :: i < j < a.Length ==> a[j] == old(a[j])
      invariant InsertById(front, key) == InsertById(front[..at], key) + front[at..]
    {
      InsertDown(front, at, key);
      a[at] := a[at - 1];
      at := at - 1;
    }
    InsertHere(front, at, key);
    a[at] := key;
    PutTogether(a[..], front, at, key);
    assert a[..][..i + 1] == a[..i + 1];
  }

  lemma PutTogether(s: seq<Source>, front: seq<Source>, at: nat, x: Source)
    requires at <= |front| < |s| && s[at] == x && forall j :: 0 <= j < at ==> s[j] == front[j]
    requires forall j :: at < j <= |front| ==> s[j] == front[j - 1]
    ensures s[..|front| + 1] == front[..at] + [x] + front[at..]
  {
  }

  lemma InsertDown(front: seq<Source>, at: nat, x: Source)
    requires 0 < at <= |front| && front[at - 1].fid > x.fid
    ensures InsertById(front[..at], x) + front[at..] == InsertById(front[..at - 1], x) + front[at - 1..]
  {
    assert front[..at][..at - 1] == front[..at - 1] && front[at - 1..] == [front[at - 1]] + front[at..];
  }

  lemma InsertHere(front: seq<Source>, at: nat, x: Source)
    requires at <= |front| && (at == 0 || front[at - 1].fid <= x.fid)
    ensures InsertById(front[..at], x) == front[..at] + [x]
  {
  }

  // ---------- What a compaction leaves ----------

  /** No file number is registered twice. */
  ghost predicate Distinct(d: Disk) {
    && (forall l :: 0 <= l < |d.levels| ==> Unique(d.levels[l]))
    && forall l, m, f :: 0 <= l < m < |d.levels| && f in d.levels[l] ==> f !in d.levels[m]
  }

  ghost predicate Unique(fids: seq<nat>) {
    forall i, j :: 0 <= i < j < |fids| ==> fids[i] != fids[j]
  }

  /** No two files of level 1 have a key in common. */
  ghost predicate Apart(ts: seq<Table>) {
    forall i, j, k :: 0 <= i < j < |ts| && k in ts[i] ==> k !in ts[j]
  }

  /** Registered files of the first two levels are there and have records. */
  ghost predicate Filled(d: Disk) {
    |d.levels| == LM_MAX_LEVELS && forall s: Source :: s.lvl < 2 && s.fid in d.levels[s.lvl] ==> TableAt(d, s) != map[]
  }

  ghost predicate DiskTree(d: Disk) {
    |d.levels| == LM_MAX_LEVELS && Distinct(d) && Apart(LevelTables(d, 1)) && Filled(d)
  }

  ghost function LevelTables(d: Disk, lvl: nat): seq<Table>
    requires lvl < |d.levels|
  {
    Tables(d, Sources(lvl, d.levels[lvl]))
  }

  function Captured(d: Disk, n: nat): seq<Source>
    requires |d.levels| == LM_MAX_LEVELS && n <= |d.levels[0]|
  {
    Sources(0, d.levels[0][..n])
  }

  /** What level 0 says about the keys, of the first `n` files, and of those registered later. */
  ghost function Front(d: Disk, n: nat): Table
    requires |d.levels| == LM_MAX_LEVELS && n <= |d.levels[0]|
  {
    Overlay(Tables(d, Captured(d, n)))
  }

  ghost function Later(d: Disk, n: nat): Table
    requires |d.levels| == LM_MAX_LEVELS && n <= |d.levels[0]|
  {
    Overlay(Tables(d, Sources(0, d.levels[0][n..])))
  }

  /** The files of level 1 that are merged, or those that stay. */
  ghost function Hit(d: Disk, n: nat, meeting: bool): seq<nat>
    requires |d.levels| == LM_MAX_LEVELS && n <= |d.levels[0]|
  {
    Select(d, d.levels[1], Front(d, n), meeting)
  }

  ghost function HitTable(d: Disk, n: nat, meeting: bool): Table
    requires |d.levels| == LM_MAX_LEVELS && n <= |d.levels[0]|
  {
    Overlay(Tables(d, Sources(1, Hit(d, n, meeting))))
  }

  ghost function Order(d: Disk, n: nat): seq<Source>
    requires |d.levels| == LM_MAX_LEVELS && n <= |d.levels[0]|
  {
    SortById(Captured(d, n) + Sources(1, Hit(d, n, true)))
  }

  /** The sources as the merge reads them, and as a read meets them. */
  ghost function InNumberOrder(d: Disk, n: nat): Table
    requires |d.levels| == LM_MAX_LEVELS && n <= |d.levels[0]|
  {
    Overlay(Tables(d, Order(d, n)))
  }

  ghost function InReadingOrder(d: Disk, n: nat): Table
    requires |d.levels| == LM_MAX_LEVELS && n <= |d.levels[0]|
  {
    HitTable(d, n, true) + Front(d, n)
  }

  /** No level further down has a file, so tombstones have nothing to hide. */
  predicate Bottom(d: Disk) {
    forall l :: 2 <= l < |d.levels| ==> d.levels[l] == []
  }

  ghost function Output(d: Disk, n: nat): Table
    requires |d.levels| == LM_MAX_LEVELS && n <= |d.levels[0]|
  {
    Purged(InNumberOrder(d, n), Bottom(d))
  }

  predicate Room(d: Disk)
    requires |d.levels| == LM_MAX_LEVELS
  {
    |d.levels[1]| < LM_MAX_SSTABLES_PER_LEVEL
  }

  /** The disk after a compaction of the first `n` files of level 0 into a file with number `fid`. */
  ghost function Compacted(d: Disk, n: nat, fid: nat): (e: Disk)
    requires |d.levels| == LM_MAX_LEVELS && n <= |d.levels[0]|
    ensures |e.levels| == LM_MAX_LEVELS
  {
    if n == 0 then d
    else
      var t := Output(d, n);
      var kept := Hit(d, n, false) + (if t != map[] && Room(d) then [fid] else []);
      var gone := set s | s in Order(d, n) :: (s.lvl, s.fid);
      Disk(d.levels[0 := d.levels[0][n..]][1 := kept], (if t != map[] then d.files[(1, fid) := t] else d.files) - gone)
  }

  ghost predicate Unused(d: Disk, fid: nat) {
    (forall l :: 0 <= l < |d.levels| ==> fid !in d.levels[l]) && (1, fid) !in d.files
  }

  // ---------- Reading, by overlays ----------

  lemma {:induction false} Level0Reads(d: Disk, i: nat, k: Blob)
    requires |d.levels| == LM_MAX_LEVELS && i <= |d.levels[0]|
    ensures FindLevel(d, 0, i, k) == Get(Overlay(Tables(d, Sources(0, d.levels[0][..|d.levels[0]| - i]))), k)
    decreases |d.levels[0]| - i
  {
    var m := |d.levels[0]| - i;
    var ts := Tables(d, Sources(0, d.levels[0][..m]));
    if m > 0 {
      Level0Reads(d, i + 1, k);
      assert ts[..m - 1] == Tables(d, Sources(0, d.levels[0][..m - 1]));
      assert FileAt(d, 0, i) == d.levels[0][m - 1];
    }
  }

  lemma {:induction false} Level1Reads(d: Disk, i: nat, k: Blob)
    requires |d.levels| == LM_MAX_LEVELS && i <= |d.levels[1]| && Apart(LevelTables(d, 1))
    requires forall j :: 0 <= j < i ==> k !in LevelTables(d, 1)[j]
    ensures FindLevel(d, 1, i, k) == Get(Overlay(LevelTables(d, 1)), k)
    decreases |d.levels[1]| - i
  {
    var ts := LevelTables(d, 1);
    if i == |ts| {
      var j := OverlayLast(ts, k);
    } else if k in ts[i] {
      OverlayAt(ts, i, k);
    } else {
      Level1Reads(d, i + 1, k);
    }
  }

  lemma {:induction false} NothingBelow(d: Disk, lvl: nat, k: Blob)
    requires |d.levels| == LM_MAX_LEVELS && Bottom(d) && 2 <= lvl <= SEARCHED_LEVELS
    ensures FindDisk(d, lvl, k) == None
    decreases SEARCHED_LEVELS - lvl
  {
    if lvl < SEARCHED_LEVELS { NothingBelow(d, lvl + 1, k); }
  }

  ghost function Or(a: Option<Entry>, b: Option<Entry>): Option<Entry> {
    if a.Some? then a else b
  }

  /** A read: level 0 from its newest file, level 1, the rest. */
  lemma Reads(d: Disk, k: Blob)
    requires DiskTree(d)
    ensures FindDisk(d, 0, k) == Or(Get(Overlay(LevelTables(d, 0)), k), Or(Get(Overlay(LevelTables(d, 1)), k), FindDisk(d, 2, k)))
  {
    hide FindLevel, Overlay;
    Level0Reads(d, 0, k);
    assert d.levels[0][..|d.levels[0]| - 0] == d.levels[0];
    Level1Reads(d, 0, k);
  }

  lemma TablesMore(d: Disk, lvl: nat, fids: seq<nat>, f: nat)
    ensures Overlay(Tables(d, Sources(lvl, fids + [f]))) == Overlay(Tables(d, Sources(lvl, fids))) + TableAt(d, Source(lvl, f))
  {
    var ts := Tables(d, Sources(lvl, fids + [f]));
    assert ts[..|fids|] == Tables(d, Sources(lvl, fids));
  }

  /** The files of level 1 by whether they are merged. */
  lemma {:induction false} SelectParts(d: Disk, fids: seq<nat>, u: Table, k: Blob)
    requires Apart(Tables(d, Sources(1, fids)))
    ensures var a, x, y := Overlay(Tables(d, Sources(1, fids))), Overlay(Tables(d, Sources(1, Select(d, fids, u, true)))), Overlay(Tables(d, Sources(1, Select(d, fids, u, false))));
            && (k in x ==> k !in y) && Get(a, k) == Or(Get(y, k), Get(x, k))
  {
    hide Meets, Overlay, Apart, Select, Tables, Sources, TableAt;
    SelectEnds(d, fids, u, true);
    SelectEnds(d, fids, u, false);
    if fids == [] {
      NoTables(d);
    } else {
      var n := |fids| - 1;
      assert fids == fids[..n] + [fids[n]];
      ApartFront(d, fids, k);
      SelectParts(d, fids[..n], u, k);
      TablesMore(d, 1, fids[..n], fids[n]);
      TablesMore(d, 1, Select(d, fids[..n], u, true), fids[n]);
      TablesMore(d, 1, Select(d, fids[..n], u, false), fids[n]);
    }
  }

  lemma SelectEnds(d: Disk, fids: seq<nat>, u: Table, meeting: bool)
    ensures fids == [] ==> Select(d, fids, u, meeting) == []
    ensures fids != [] ==>
              var n := |fids| - 1; var front := Select(d, fids[..n], u, meeting);
              Select(d, fids, u, meeting) == if Meets(TableAt(d, Source(1, fids[n])), u) == meeting then front + [fids[n]] else front
  {
    hide Meets;
  }

  lemma NoTables(d: Disk)
    ensures Overlay(Tables(d, Sources(1, []))) == map[]
  {
  }

  lemma ApartFront(d: Disk, fids: seq<nat>, k: Blob)
    requires fids != [] && Apart(Tables(d, Sources(1, fids)))
    ensures var n := |fids| - 1;
            Apart(Tables(d, Sources(1, fids[..n]))) && (k in TableAt(d, Source(1, fids[n])) ==> k !in Overlay(Tables(d, Sources(1, fids[..n]))))
  {
    hide Overlay;
    var n := |fids| - 1;
    var ts := Tables(d, Sources(1, fids));
    assert ts[..n] == Tables(d, Sources(1, fids[..n]));
    var j := OverlayLast(ts[..n], k);
    assert k in Overlay(ts[..n]) ==> j < n && k in ts[j];
  }

  // ---------- The disk before and after ----------

  lemma InOverlay(d: Disk, ss: seq<Source>, k: Blob)
    ensures k in Overlay(Tables(d, ss)) <==> exists s :: s in ss && k in TableAt(d, s)
  {
    hide Overlay, TableAt;
    var ts := Tables(d, ss);
    var i := OverlayLast(ts, k);
    if k in Overlay(ts) {
      assert ss[i] in ss && k in TableAt(d, ss[i]);
    } else {
      forall s | s in ss ensures k !in TableAt(d, s) {
        var j :| 0 <= j < |ss| && ss[j] == s;
        assert k !in ts[j];
      }
    }
  }

  /** Where a key can be: the sources have it in one order as in the other, and a file that stays shares no key with them. */
  lemma Parts(d: Disk, n: nat, k: Blob)
    requires DiskTree(d) && n <= |d.levels[0]|
    ensures Get(Overlay(LevelTables(d, 0)), k) == Or(Get(Later(d, n), k), Get(Front(d, n), k))
    ensures Get(Overlay(LevelTables(d, 1)), k) == Or(Get(HitTable(d, n, false), k), Get(HitTable(d, n, true), k))
    ensures k in HitTable(d, n, false) ==> k !in Front(d, n) && k !in HitTable(d, n, true)
    ensures k in InNumberOrder(d, n) <==> k in Front(d, n) || k in HitTable(d, n, true)
  {
    hide Meets, Overlay, Apart, Distinct, SortById, TableAt;
    var l0 := d.levels[0];
    assert LevelTables(d, 0) == Tables(d, Sources(0, l0[..n])) + Tables(d, Sources(0, l0[n..]));
    OverlayJoin(Tables(d, Sources(0, l0[..n])), Tables(d, Sources(0, l0[n..])));
    SelectParts(d, d.levels[1], Front(d, n), k);
    if k in HitTable(d, n, false) { KeptShares(d, n, k); }
    SortSorted(Captured(d, n) + Sources(1, Hit(d, n, true)));
    InOverlay(d, Order(d, n), k);
    InOverlay(d, Captured(d, n), k);
    InOverlay(d, Sources(1, Hit(d, n, true)), k);
  }

  lemma KeptShares(d: Disk, n: nat, k: Blob)
    requires DiskTree(d) && n <= |d.levels[0]| && k in HitTable(d, n, false)
    ensures k !in Front(d, n)
  {
    hide Meets, Overlay, Apart, Distinct, TableAt;
    InOverlay(d, Sources(1, Hit(d, n, false)), k);
    var s :| s in Sources(1, Hit(d, n, false)) && k in TableAt(d, s);
    if k in Front(d, n) { SharedMeets(TableAt(d, s), Front(d, n), k); }
  }

  lemma OrderHas(d: Disk, n: nat, s: Source)
    requires |d.levels| == LM_MAX_LEVELS && n <= |d.levels[0]|
    ensures s in Order(d, n) <==> (s.lvl == 0 && s.fid in d.levels[0][..n]) || (s.lvl == 1 && s.fid in Hit(d, n, true))
  {
    hide Overlay, SortById, Select;
    SortSorted(Captured(d, n) + Sources(1, Hit(d, n, true)));
    var a, b := Captured(d, n), Sources(1, Hit(d, n, true));
    if s.fid in d.levels[0][..n] && s.lvl == 0 { var i :| 0 <= i < n && d.levels[0][..n][i] == s.fid; assert a[i] == s; }
    if s.fid in Hit(d, n, true) && s.lvl == 1 { var i :| 0 <= i < |b| && Hit(d, n, true)[i] == s.fid; assert b[i] == s; }
  }

  /** The files after a compaction: the sources are gone, the new one is there, all others are as before. */
  lemma FileAfter(d: Disk, n: nat, fid: nat, s: Source)
    requires |d.levels| == LM_MAX_LEVELS && 0 < n <= |d.levels[0]| && Unused(d, fid) && s !in Order(d, n)
    ensures TableAt(Compacted(d, n, fid), s) == if s == Source(1, fid) then Output(d, n) else TableAt(d, s)
  {
    hide Order, Output, Hit;
    var gone := set x | x in Order(d, n) :: (x.lvl, x.fid);
    assert forall x: Source :: x.lvl == s.lvl && x.fid == s.fid ==> x == s;
  }

  /** What level 0 and level 1 are after a compaction. */
  lemma LevelsAfter(d: Disk, n: nat, fid: nat)
    requires DiskTree(d) && 0 < n <= |d.levels[0]| && Unused(d, fid)
    ensures var e, t := Compacted(d, n, fid), Output(d, n);
            && Overlay(LevelTables(e, 0)) == Later(d, n)
            && LevelTables(e, 1) == Tables(d, Sources(1, Hit(d, n, false))) + (if t != map[] && Room(d) then [t] else [])
  {
    hide Overlay, Apart, TableAt, Order, Output;
    var e, t, l0, stay := Compacted(d, n, fid), Output(d, n), d.levels[0], Hit(d, n, false);
    forall i | 0 <= i < |l0[n..]| ensures TableAt(e, Source(0, l0[n..][i])) == TableAt(d, Source(0, l0[n..][i])) {
      OrderHas(d, n, Source(0, l0[n..][i]));
      FileAfter(d, n, fid, Source(0, l0[n..][i]));
    }
    assert LevelTables(e, 0) == Tables(d, Sources(0, l0[n..]));
    forall i | 0 <= i < |stay| ensures TableAt(e, Source(1, stay[i])) == TableAt(d, Source(1, stay[i])) {
      StaysUnmerged(d, n, stay[i]);
      OrderHas(d, n, Source(1, stay[i]));
      FileAfter(d, n, fid, Source(1, stay[i]));
    }
    NewUnmerged(d, n, fid);
    FileAfter(d, n, fid, Source(1, fid));
  }

  lemma StaysUnmerged(d: Disk, n: nat, f: nat)
    requires DiskTree(d) && n <= |d.levels[0]| && f in Hit(d, n, false)
    ensures f !in Hit(d, n, true) && f in d.levels[1]
  {
    hide Overlay, Apart, TableAt, Meets;
  }

  lemma NewUnmerged(d: Disk, n: nat, fid: nat)
    requires DiskTree(d) && n <= |d.levels[0]| && Unused(d, fid)
    ensures Source(1, fid) !in Order(d, n) && fid !in d.levels[1]
  {
    hide Overlay, Apart, TableAt, Meets;
    OrderHas(d, n, Source(1, fid));
  }

  /** Level 1 stays free of shared keys. */
  lemma ApartAfter(d: Disk, n: nat, fid: nat)
    requires DiskTree(d) && 0 < n <= |d.levels[0]| && Unused(d, fid)
    ensures Apart(LevelTables(Compacted(d, n, fid), 1))
  {
    hide Overlay, TableAt, Output, Compacted;
    LevelsAfter(d, n, fid);
    var ts := Tables(d, Sources(1, Hit(d, n, false)));
    SelectApart(d, d.levels[1], Front(d, n), false);
    forall j, k | 0 <= j < |ts| && k in ts[j] ensures k !in Output(d, n) {
      Parts(d, n, k);
      var s := Sources(1, Hit(d, n, false))[j];
      InOverlay(d, Sources(1, Hit(d, n, false)), k);
      assert s in Sources(1, Hit(d, n, false)) && k in TableAt(d, s);
      OutputKeys(d, n, k);
    }
  }

  lemma OutputKeys(d: Disk, n: nat, k: Blob)
    requires |d.levels| == LM_MAX_LEVELS && n <= |d.levels[0]|
    ensures k in Output(d, n) <==> k in InNumberOrder(d, n) && (Bottom(d) ==> InNumberOrder(d, n)[k].Live?)
    ensures k in Output(d, n) ==> Output(d, n)[k] == InNumberOrder(d, n)[k]
  {
    hide Overlay, Order;
  }

  lemma {:induction false} SelectApart(d: Disk, fids: seq<nat>, u: Table, meeting: bool)
    requires Apart(Tables(d, Sources(1, fids)))
    ensures Apart(Tables(d, Sources(1, Select(d, fids, u, meeting))))
  {
    hide Meets, TableAt, Overlay, Select;
    SelectEnds(d, fids, u, meeting);
    if fids != [] {
      var n := |fids| - 1;
      var ts, front := Tables(d, Sources(1, fids)), Select(d, fids[..n], u, meeting);
      assert ts[..n] == Tables(d, Sources(1, fids[..n]));
      SelectApart(d, fids[..n], u, meeting);
      var rs := Tables(d, Sources(1, front));
      forall i, k | 0 <= i < |rs| && k in rs[i] ensures k !in ts[n] {
        assert front[i] in fids[..n];
        var j :| 0 <= j < n && fids[..n][j] == front[i];
        assert ts[j] == rs[i];
      }
      assert Tables(d, Sources(1, front + [fids[n]])) == rs + [ts[n]];
    }
  }

  // ---------- The compaction itself ----------

  /** What the files hold: each registered file of the first two levels is a run of its table's records. */
  ghost predicate Runs(d: Disk, runs: map<Source, seq<Rec>>) {
    && |d.levels| == LM_MAX_LEVELS
    && forall s: Source :: s.lvl < 2 && s.fid in d.levels[s.lvl] ==>
         s in runs && runs[s] != [] && Ascending(runs[s]) && TableOf(runs[s]) == TableAt(d, s)
  }

  /** The least and the greatest key of a table. */
  ghost predicate Spans(t: Table, lo: Blob, hi: Blob) {
    lo in t && hi in t && forall k :: k in t ==> !Below(k, lo) && !Below(hi, k)
  }

  /** A run's ends, which are registered with its file. */
  lemma RunSpans(rs: seq<Rec>)
    requires rs != [] && Ascending(rs)
    ensures Spans(TableOf(rs), rs[0].key, rs[|rs| - 1].key)
  {
    hide Below, TableOf;
    RunEnds(rs);
    forall k | k in TableOf(rs) ensures !Below(k, rs[0].key) && !Below(rs[|rs| - 1].key, k) {
      TableHas(rs, k);
      var i :| 0 <= i < |rs| && rs[i].key == k;
      BelowTotal(k, rs[0].key);
      BelowTotal(k, rs[|rs| - 1].key);
    }
  }

  lemma RunEnds(rs: seq<Rec>)
    requires rs != [] && Ascending(rs)
    ensures rs[0].key in TableOf(rs) && rs[|rs| - 1].key in TableOf(rs)
  {
    hide Below, TableOf;
    EntryAt(rs, 0);
    EntryAt(rs, |rs| - 1);
  }

  lemma SpansMore(t: Table, lo: Blob, hi: Blob, u: Table, lo2: Blob, hi2: Blob)
    requires Spans(t, lo, hi) && Spans(u, lo2, hi2)
    ensures Spans(t + u, if Below(lo2, lo) then lo2 else lo, if Below(hi, hi2) then hi2 else hi)
  {
    hide Below;
    var a, b := if Below(lo2, lo) then lo2 else lo, if Below(hi, hi2) then hi2 else hi;
    BelowTotal(lo, lo2);
    BelowTotal(lo, lo);
    BelowTotal(lo2, lo2);
    BelowTotal(hi, hi2);
    BelowTotal(hi, hi);
    BelowTotal(hi2, hi2);
    assert !Below(lo, a) && !Below(lo2, a) && !Below(b, hi) && !Below(b, hi2);
    forall k | k in t + u ensures !Below(k, a) && !Below(b, k) {
      if k in t {
        NotBelow(k, lo, a);
        NotBelow(b, hi, k);
      } else {
        NotBelow(k, lo2, a);
        NotBelow(b, hi2, k);
      }
    }
    assert a in t + u && b in t + u;
  }

  /** Not below is a total order, too. */
  lemma NotBelow(a: Blob, b: Blob, c: Blob)
    ensures !Below(a, b) && !Below(b, c) ==> !Below(a, c)
  {
    hide Below;
    BelowTotal(a, b);
    BelowTotal(b, c);
    BelowTotal(a, c);
    if Below(c, b) && Below(b, a) { BelowTransitive(c, b, a); }
  }

  /** Two ranges meet when neither ends before the other begins. */
  lemma SpansMeet(t: Table, lo: Blob, hi: Blob, u: Table, lo2: Blob, hi2: Blob)
    requires Spans(t, lo, hi) && Spans(u, lo2, hi2)
    ensures Meets(t, u) <==> !Below(hi, lo2) && !Below(hi2, lo)
  {
    hide Below;
    if Reaches(t, u) {
      var a, b :| a in t && b in u && !Below(b, a);
      NotBelow(hi2, b, a);
      NotBelow(hi2, a, lo);
    }
    if Reaches(u, t) {
      var a, b :| a in u && b in t && !Below(b, a);
      NotBelow(hi, b, a);
      NotBelow(hi, a, lo2);
    }
  }

  /** The key range of the captured files. */
  method KeyRange(d: Disk, n: nat, runs: map<Source, seq<Rec>>) returns (lo: Blob, hi: Blob)
    requires Runs(d, runs) && 0 < n <= |d.levels[0]|
    ensures Spans(Front(d, n), lo, hi)
  {
    hide Below, Spans, Overlay, TableOf, Ascending, TableAt;
    var i := 0;
    lo, hi := [], [];
    while i < n
      invariant i <= n && (i > 0 ==> Spans(Overlay(Tables(d, Sources(0, d.levels[0][..i]))), lo, hi))
    {
      var run := runs[Source(0, d.levels[0][i])];
      RunSpans(run);
      var fileLo, fileHi := run[0].key, run[|run| - 1].key;
      assert d.levels[0][..i + 1] == d.levels[0][..i] + [d.levels[0][i]];
      TablesMore(d, 0, d.levels[0][..i], d.levels[0][i]);
      if i == 0 {
        assert d.levels[0][..0] == [];
        OverlayNone(d, TableAt(d, Source(0, d.levels[0][0])));
        lo, hi := fileLo, fileHi;
      } else {
        SpansMore(Overlay(Tables(d, Sources(0, d.levels[0][..i]))), lo, hi, TableOf(run), fileLo, fileHi);
        if Below(fileLo, lo) { lo := fileLo; }
        if Below(hi, fileHi) { hi := fileHi; }
      }
      i := i + 1;
    }
  }

  lemma OverlayNone(d: Disk, t: Table)
    ensures Overlay(Tables(d, Sources(0, []))) + t == t
  {
  }

  /** The files of level 1 whose ranges meet it. */
  method Overlapping(d: Disk, n: nat, runs: map<Source, seq<Rec>>, lo: Blob, hi: Blob) returns (over: seq<nat>)
    requires Runs(d, runs) && n <= |d.levels[0]| && Spans(Front(d, n), lo, hi)
    ensures over == Hit(d, n, true)
  {
    hide Below, Spans, Overlay, TableOf, Ascending, TableAt, Meets, Select, Front;
    var fids := d.levels[1];
    over := [];
    var i := 0;
    SelectEnds(d, [], Front(d, n), true);
    while i < |fids|
      invariant i <= |fids| && over == Select(d, fids[..i], Front(d, n), true)
    {
      var run := runs[Source(1, fids[i])];
      RunSpans(run);
      SpansMeet(TableOf(run), run[0].key, run[|run| - 1].key, Front(d, n), lo, hi);
      assert fids[..i + 1][..i] == fids[..i];
      SelectEnds(d, fids[..i + 1], Front(d, n), true);
      var apart := false;
      if Below(run[|run| - 1].key, lo) { apart := true; }
      if Below(hi, run[0].key) { apart := true; }
      if !apart {
        over := over + [fids[i]];
      }
      i := i + 1;
    }
    assert fids[..|fids|] == fids;
  }

  /** From the captured files to the records of the new one: range, overlap, sort by number, merge. */
  method MergeSources(d: Disk, n: nat, runs: map<Source, seq<Rec>>) returns (over: seq<nat>, out: seq<Rec>)
    requires Runs(d, runs) && 0 < n <= |d.levels[0]|
    ensures over == Hit(d, n, true) && Ascending(out) && TableOf(out) == Output(d, n)
  {
    hide Below, Spans, Overlay, TableOf, Ascending, TableAt, Meets, Select, SortById, Front;
    var lo, hi := KeyRange(d, n, runs);
    over := Overlapping(d, n, runs, lo, hi);
    var sources := Captured(d, n) + Sources(1, over);
    var files := new Source[|sources|](i requires 0 <= i < |sources| => sources[i]);
    assert files[..] == sources;
    SortFiles(files);
    SortSorted(sources);
    var order := files[..];
    var lists: seq<seq<Rec>> := [];
    var i := 0;
    while i < |order|
      invariant i <= |order| && |lists| == i && order == Order(d, n)
      invariant forall j :: 0 <= j < i ==> Ascending(lists[j]) && TableOf(lists[j]) == TableAt(d, order[j])
    {
      assert order[i] in order;
      OrderHas(d, n, order[i]);
      SourceOfLevel(d, n, order[i]);
      lists := lists + [runs[order[i]]];
      i := i + 1;
    }
    MergedOverlay(lists, Tables(d, order));
    out := WriteMerged(lists, Bottom(d));
  }

  lemma SourceOfLevel(d: Disk, n: nat, s: Source)
    requires |d.levels| == LM_MAX_LEVELS && n <= |d.levels[0]| && s in Order(d, n)
    ensures s.lvl < 2 && s.fid in d.levels[s.lvl]
  {
    hide Overlay, SortById;
    OrderHas(d, n, s);
  }

  // ---------- Taking files off a level ----------

  function Removed(fids: seq<nat>, f: nat): seq<nat> {
    if fids == [] then [] else if fids[0] == f then fids[1..] else [fids[0]] + Removed(fids[1..], f)
  }

  function Minus(fids: seq<nat>, gone: set<nat>): seq<nat> {
    if fids == [] then [] else if fids[0] in gone then Minus(fids[1..], gone) else [fids[0]] + Minus(fids[1..], gone)
  }

  /** The entries behind the one that is taken off move up. */
  method RemoveFile(fids: seq<nat>, f: nat) returns (r: seq<nat>)
    ensures r == Removed(fids, f)
  {
    r := fids;
    var i := 0;
    while i < |fids|
      invariant i <= |fids| && r == fids && Removed(fids, f) == fids[..i] + Removed(fids[i..], f)
    {
      if fids[i] == f {
        assert fids[i..][1..] == fids[i + 1..];
        return fids[..i] + fids[i + 1..];
      }
      assert fids[..i] + [fids[i]] == fids[..i + 1] && fids[i..][1..] == fids[i + 1..];
      i := i + 1;
    }
    assert fids[..i] == fids && fids[i..] == [];
  }

  lemma {:induction false} MinusNone(fids: seq<nat>, gone: set<nat>)
    requires forall f :: f in fids ==> f !in gone
    ensures Minus(fids, gone) == fids
  {
    if fids != [] {
      MinusNone(fids[1..], gone);
      assert fids == [fids[0]] + fids[1..];
    }
  }

  lemma {:induction false} MinusMore(fids: seq<nat>, gone: set<nat>, f: nat)
    requires Unique(fids) && f !in gone
    ensures Removed(Minus(fids, gone), f) == Minus(fids, gone + {f})
  {
    if fids != [] {
      assert forall i :: 0 <= i < |fids| - 1 ==> fids[1..][i] == fids[i + 1];
      MinusMore(fids[1..], gone, f);
      if fids[0] == f { SameMinus(fids[1..], gone, f); }
    }
  }

  lemma {:induction false} SameMinus(fids: seq<nat>, gone: set<nat>, f: nat)
    requires f !in fids
    ensures Minus(fids, gone + {f}) == Minus(fids, gone)
  {
    if fids != [] { SameMinus(fids[1..], gone, f); }
  }

  lemma {:induction false} MinusJoin(a: seq<nat>, b: seq<nat>, gone: set<nat>)
    ensures Minus(a + b, gone) == Minus(a, gone) + Minus(b, gone)
  {
    if a == [] {
      assert a + b == b;
    } else {
      assert (a + b)[1..] == a[1..] + b;
      MinusJoin(a[1..], b, gone);
    }
  }

  /** Without the files that meet the range, those that do not are left. */
  lemma {:induction false} MinusSelect(d: Disk, fids: seq<nat>, u: Table, gone: set<nat>)
    requires forall f :: f in fids ==> (f in gone <==> Meets(TableAt(d, Source(1, f)), u))
    ensures Minus(fids, gone) == Select(d, fids, u, false)
    decreases |fids|
  {
    hide Meets, TableAt, Select;
    SelectEnds(d, fids, u, false);
    if fids != [] {
      var n := |fids| - 1;
      MinusSelect(d, fids[..n], u, gone);
      assert fids == fids[..n] + [fids[n]];
      MinusJoin(fids[..n], [fids[n]], gone);
    }
  }

  /** The captured files are the first on level 0, one after the other. */
  method TakeFront(fids: seq<nat>, n: nat) returns (r: seq<nat>)
    requires n <= |fids|
    ensures r == fids[n..]
  {
    r := fids;
    var i := 0;
    while i < n
      invariant i <= n && r == fids[i..]
    {
      r := RemoveFile(r, fids[i]);
      i := i + 1;
    }
  }

  ghost function Members(fids: seq<nat>): set<nat> {
    set f | f in fids
  }

  lemma MembersMore(fids: seq<nat>, j: nat)
    requires j < |fids|
    ensures Members(fids[..j + 1]) == Members(fids[..j]) + {fids[j]}
  {
    assert fids[..j + 1] == fids[..j] + [fids[j]];
  }

  method TakeOff(fids: seq<nat>, over: seq<nat>) returns (r: seq<nat>)
    requires Unique(fids) && Unique(over)
    ensures r == Minus(fids, Members(over))
  {
    r := fids;
    var j := 0;
    MinusNone(fids, {});
    assert over[..0] == [] && Members(over[..0]) == {};
    while j < |over|
      invariant j <= |over| && r == Minus(fids, Members(over[..j]))
    {
      MembersMore(over, j);
      MinusMore(fids, Members(over[..j]), over[j]);
      r := RemoveFile(r, over[j]);
      j := j + 1;
    }
    assert over[..j] == over;
  }

  /** The whole compaction: merge, write and register the new file on level 1 while there is room, take the sources
      off both levels and delete their files. */
  method CompactLevel(d: Disk, n: nat, fid: nat, runs: map<Source, seq<Rec>>) returns (e: Disk)
    requires DiskTree(d) && n <= |d.levels[0]| && Unused(d, fid) && Runs(d, runs)
    ensures e == Compacted(d, n, fid)
  {
    hide Overlay, TableOf, TableAt, Meets, Select, Front, Apart, Output, Order, Ascending, Hit, Unique, Distinct, Runs, Minus, Members, Unused;
    if n == 0 {
      return d;
    }
    var over, out := MergeSources(d, n, runs);
    var t := TableOf(out);
    var added := d.levels[1];
    var files := d.files;
    NoRecordNoTable(out);
    if out != [] {
      files := files[(1, fid) := t];
      if |added| < LM_MAX_SSTABLES_PER_LEVEL { added := added + [fid]; }
    }
    var level0 := TakeFront(d.levels[0], n);
    TailStays(d, n, fid, added);
    var level1 := TakeOff(added, over);
    GoneFiles(d, n, over);
    var dead := (set f | f in d.levels[0][..n] :: (0 as nat, f)) + (set f | f in over :: (1 as nat, f));
    e := Disk(d.levels[0 := level0][1 := level1], files - dead);
  }

  lemma NoRecordNoTable(out: seq<Rec>)
    ensures out == [] <==> TableOf(out) == map[]
  {
    if out != [] { assert out[|out| - 1].key in TableOf(out); }
  }

  lemma TailStays(d: Disk, n: nat, fid: nat, added: seq<nat>)
    requires DiskTree(d) && n <= |d.levels[0]| && Unused(d, fid)
    requires added == d.levels[1] || added == d.levels[1] + [fid]
    ensures Unique(added) && Unique(Hit(d, n, true))
    ensures Minus(added, Members(Hit(d, n, true))) == Hit(d, n, false) + added[|d.levels[1]|..]
  {
    hide Overlay, TableAt, Meets, Front, Apart, Select;
    SelectUnique(d, d.levels[1], Front(d, n), true);
    var gone := Members(Hit(d, n, true));
    var tail := added[|d.levels[1]|..];
    assert added == d.levels[1] + tail;
    MinusSelect(d, d.levels[1], Front(d, n), gone);
    MinusJoin(d.levels[1], tail, gone);
    MinusNone(tail, gone);
  }

  lemma GoneFiles(d: Disk, n: nat, over: seq<nat>)
    requires |d.levels| == LM_MAX_LEVELS && n <= |d.levels[0]| && over == Hit(d, n, true)
    ensures (set f | f in d.levels[0][..n] :: (0 as nat, f)) + (set f | f in over :: (1 as nat, f)) == set s | s in Order(d, n) :: (s.lvl, s.fid)
  {
    hide Order, Hit;
    var a := (set f | f in d.levels[0][..n] :: (0 as nat, f)) + (set f | f in over :: (1 as nat, f));
    var b := set s | s in Order(d, n) :: (s.lvl, s.fid);
    forall l: nat, f: nat ensures (l, f) in a <==> (l, f) in b {
      OrderHas(d, n, Source(l, f));
      if Source(l, f) in Order(d, n) { assert (Source(l, f).lvl, Source(l, f).fid) in b; }
    }
  }

  /** Exactly the merged files are deleted, and exactly the new one, if it has records, is added. */
  lemma FilesLeft(d: Disk, n: nat, fid: nat, l: nat, f: nat)
    requires DiskTree(d) && 0 < n <= |d.levels[0]| && Unused(d, fid)
    ensures (l, f) in Compacted(d, n, fid).files <==>
              if l == 1 && f == fid then Output(d, n) != map[]
              else (l, f) in d.files && !(l == 0 && exists i :: 0 <= i < n && d.levels[0][i] == f)
                   && !(l == 1 && f in d.levels[1] && Meets(TableAt(d, Source(1, f)), Front(d, n)))
  {
    hide Output, Order, Front, Meets, TableAt, Apart, Distinct, Overlay, Select;
    OrderHas(d, n, Source(l, f));
    NewUnmerged(d, n, fid);
    if l == 0 && f in d.levels[0][..n] {
      var i :| 0 <= i < n && d.levels[0][..n][i] == f;
      assert d.levels[0][i] == f;
    }
    if i :| 0 <= i < n && d.levels[0][i] == f { assert d.levels[0][..n][i] == f; }
    assert forall x: Source :: x.lvl == l && x.fid == f ==> x == Source(l, f);
  }

  /** What the new file says: the merged records, without the tombstones if level 2 and all below have no file. */
  lemma NewFileHolds(d: Disk, n: nat, fid: nat, k: Blob)
    requires DiskTree(d) && 0 < n <= |d.levels[0]| && Unused(d, fid)
    ensures InFile(Compacted(d, n, fid), 1, fid, k) ==
              if k in InNumberOrder(d, n) && (InNumberOrder(d, n)[k].Live? || exists l :: 2 <= l < 7 && d.levels[l] != [])
              then Some(InNumberOrder(d, n)[k]) else None
  {
    hide InNumberOrder, Order, Front, Apart, Distinct, Overlay, Select;
    NewUnmerged(d, n, fid);
    assert forall x: Source :: x.lvl == 1 && x.fid == fid ==> x == Source(1, fid);
    if Output(d, n) == map[] {
      assert k !in Output(d, n);
    } else {
      assert Compacted(d, n, fid).files[(1, fid)] == Output(d, n);
    }
  }

  // ---------- Whether a compaction changes answers ----------

  /** What decides: a later file of level 0 has the key, or no source has it, or the record of the source with the
      greatest number stands for the same as the record a read meets first. (A full level 1 does not register the
      new file; the levels below it then answer.) */
  ghost predicate KeptAt(d: Disk, n: nat, k: Blob)
    requires |d.levels| == LM_MAX_LEVELS && n <= |d.levels[0]|
  {
    || k in Later(d, n) || k !in InReadingOrder(d, n)
    || Present(Get(InReadingOrder(d, n), k)) == Present(if Room(d) then Get(InNumberOrder(d, n), k) else FindDisk(d, 2, k))
  }

  ghost predicate SameAnswer(d: Disk, e: Disk, k: Blob)
    requires |d.levels| == LM_MAX_LEVELS == |e.levels|
  {
    Present(FindDisk(e, 0, k)) == Present(FindDisk(d, 0, k))
  }

  /** A compaction leaves every answer as it was exactly when, for each key, the source with the greatest number has
      the record that reads met first. */
  lemma CompactExact(d: Disk, n: nat, fid: nat)
    requires DiskTree(d) && 0 < n <= |d.levels[0]| && Unused(d, fid)
    ensures (forall k :: SameAnswer(d, Compacted(d, n, fid), k)) <==> forall k :: KeptAt(d, n, k)
  {
    hide SameAnswer, Compacted, KeptAt;
    forall k ensures SameAnswer(d, Compacted(d, n, fid), k) <==> KeptAt(d, n, k) {
      CompactAt(d, n, fid, k);
    }
  }

  lemma CompactAt(d: Disk, n: nat, fid: nat, k: Blob)
    requires DiskTree(d) && 0 < n <= |d.levels[0]| && Unused(d, fid)
    ensures SameAnswer(d, Compacted(d, n, fid), k) <==> KeptAt(d, n, k)
  {
    hide FindDisk, Compacted, Overlay, Output, InNumberOrder, Later, Front, HitTable, LevelTables, Distinct, Apart, Unused, Bottom;
    Parts(d, n, k);
    OutputKeys(d, n, k);
    ReadsAfter(d, n, fid, k);
    Reads(d, k);
    if Bottom(d) { NothingBelow(d, 2, k); }
  }

  lemma ReadsAfter(d: Disk, n: nat, fid: nat, k: Blob)
    requires DiskTree(d) && 0 < n <= |d.levels[0]| && Unused(d, fid)
    ensures var t := if Room(d) then Get(Output(d, n), k) else None;
            FindDisk(Compacted(d, n, fid), 0, k) == Or(Get(Later(d, n), k), Or(Or(t, Get(HitTable(d, n, false), k)), FindDisk(d, 2, k)))
    ensures k in HitTable(d, n, false) ==> k !in Output(d, n)
  {
    hide FindDisk, Overlay, Output, Apart, Distinct, TableAt;
    var e, t, stay := Compacted(d, n, fid), Output(d, n), Tables(d, Sources(1, Hit(d, n, false)));
    LevelsAfter(d, n, fid);
    TreeAfter(d, n, fid);
    Reads(e, k);
    if t != map[] && Room(d) { OverlayOne(stay, t); } else { assert stay + [] == stay; }
    Parts(d, n, k);
    OutputKeys(d, n, k);
    LowerAfter(d, n, fid, k);
  }

  lemma OverlaySingle(t: Table)
    ensures Overlay([t]) == t
  {
    assert [t][..0] == [] && map[] + t == t;
  }

  lemma OverlayOne(ts: seq<Table>, t: Table)
    ensures Overlay(ts + [t]) == Overlay(ts) + t
  {
    assert (ts + [t])[..|ts|] == ts;
  }

  lemma LowerAfter(d: Disk, n: nat, fid: nat, k: Blob)
    requires DiskTree(d) && 0 < n <= |d.levels[0]| && Unused(d, fid)
    ensures FindDisk(Compacted(d, n, fid), 2, k) == FindDisk(d, 2, k)
  {
    hide FindDisk, Overlay, Output, Apart, Distinct, TableAt, Order;
    var e := Compacted(d, n, fid);
    forall l: nat, f: nat | 2 <= l ensures ((l, f) in e.files <==> (l, f) in d.files) && ((l, f) in d.files ==> e.files[(l, f)] == d.files[(l, f)]) {
      OrderHas(d, n, Source(l, f));
      LowerFile(d, n, fid, l, f);
    }
    LevelsBelow(d, e, 2, k);
  }

  lemma LowerFile(d: Disk, n: nat, fid: nat, l: nat, f: nat)
    requires |d.levels| == LM_MAX_LEVELS && 0 < n <= |d.levels[0]| && l != 1 && Source(l, f) !in Order(d, n)
    ensures var e := Compacted(d, n, fid); ((l, f) in e.files <==> (l, f) in d.files) && ((l, f) in d.files ==> e.files[(l, f)] == d.files[(l, f)])
  {
    hide Order, Output, Hit;
    assert forall x: Source :: x.lvl == l && x.fid == f ==> x == Source(l, f);
  }

  lemma TreeAfter(d: Disk, n: nat, fid: nat)
    requires DiskTree(d) && 0 < n <= |d.levels[0]| && Unused(d, fid)
    ensures DiskTree(Compacted(d, n, fid))
  {
    hide Overlay, Output, Apart, TableAt, Order, Meets;
    ApartAfter(d, n, fid);
    DistinctAfter(d, n, fid);
    FilledAfter(d, n, fid);
  }

  lemma FilledAfter(d: Disk, n: nat, fid: nat)
    requires DiskTree(d) && 0 < n <= |d.levels[0]| && Unused(d, fid)
    ensures Filled(Compacted(d, n, fid))
  {
    hide Overlay, Output, Apart, TableAt, Order, Meets, Select, Front;
    var e := Compacted(d, n, fid);
    NewUnmerged(d, n, fid);
    forall s: Source | s.lvl < 2 && s.fid in e.levels[s.lvl] ensures TableAt(e, s) != map[] {
      OrderHas(d, n, s);
      if s.lvl == 0 {
        RestUnmerged(d, n, s.fid);
      } else if s.fid != fid {
        StaysUnmerged(d, n, s.fid);
      }
      FileAfter(d, n, fid, s);
    }
  }

  lemma RestUnmerged(d: Disk, n: nat, f: nat)
    requires DiskTree(d) && n <= |d.levels[0]| && f in d.levels[0][n..]
    ensures f !in d.levels[0][..n] && f in d.levels[0]
  {
    hide Apart, Filled;
  }

  lemma {:induction false} SelectUnique(d: Disk, fids: seq<nat>, u: Table, meeting: bool)
    requires Unique(fids)
    ensures Unique(Select(d, fids, u, meeting))
  {
    hide Meets, TableAt, Select;
    SelectEnds(d, fids, u, meeting);
    if fids != [] {
      var n := |fids| - 1;
      SelectUnique(d, fids[..n], u, meeting);
      assert fids[n] !in fids[..n];
    }
  }

  lemma DistinctAfter(d: Disk, n: nat, fid: nat)
    requires DiskTree(d) && 0 < n <= |d.levels[0]| && Unused(d, fid)
    ensures Distinct(Compacted(d, n, fid))
  {
    hide Overlay, Output, Apart, TableAt, Order, Meets, Select, Front;
    var e := Compacted(d, n, fid);
    SelectUnique(d, d.levels[1], Front(d, n), false);
    assert e.levels[0] == d.levels[0][n..];
    assert forall f :: f in e.levels[1] ==> f in d.levels[1] || f == fid;
  }

  // ---------- When file numbers follow recency ----------

  /** Every file of level 0 has a greater number than those registered there before it and than all of level 1. */
  ghost predicate Ordered(d: Disk) {
    && |d.levels| == LM_MAX_LEVELS
    && (forall i, j :: 0 <= i < j < |d.levels[0]| ==> d.levels[0][i] < d.levels[0][j])
    && forall f, g :: f in d.levels[1] && g in d.levels[0] ==> f < g
  }

  /** Then the two orders say the same. */
  lemma OrderedSame(d: Disk, n: nat, k: Blob)
    requires DiskTree(d) && Ordered(d) && n <= |d.levels[0]| && k in InReadingOrder(d, n)
    ensures Get(InNumberOrder(d, n), k) == Get(InReadingOrder(d, n), k)
  {
    hide Overlay, TableAt, Meets, SortById, Distinct, Apart;
    var s := MetFirst(d, n, k);
    SortSorted(Captured(d, n) + Sources(1, Hit(d, n, true)));
    GreatestCounts(d, Order(d, n), s, k);
  }

  /** The source whose record a read meets first has the greatest number among those that have the key. */
  lemma MetFirst(d: Disk, n: nat, k: Blob) returns (s: Source)
    requires DiskTree(d) && Ordered(d) && n <= |d.levels[0]| && k in InReadingOrder(d, n)
    ensures s in Order(d, n) && k in TableAt(d, s) && InReadingOrder(d, n)[k] == TableAt(d, s)[k]
    ensures forall x :: x in Order(d, n) && k in TableAt(d, x) && x != s ==> x.fid < s.fid
  {
    hide Overlay, TableAt, Meets, SortById, Distinct, Order, Select;
    var l0, hit := d.levels[0], Hit(d, n, true);
    if k in Front(d, n) {
      var i := OverlayLast(Tables(d, Captured(d, n)), k);
      s := Source(0, l0[i]);
      assert l0[..n][i] == l0[i];
      OrderHas(d, n, s);
      forall x | x in Order(d, n) && k in TableAt(d, x) && x != s ensures x.fid < s.fid {
        OrderHas(d, n, x);
        HitOfLevel(d, n, x.fid);
        assert l0[i] in l0;
        if x.lvl == 0 {
          var j :| 0 <= j < n && l0[..n][j] == x.fid;
          assert Tables(d, Captured(d, n))[j] == TableAt(d, x);
        }
      }
    } else {
      var i := OverlayLast(Tables(d, Sources(1, hit)), k);
      s := Source(1, hit[i]);
      OrderHas(d, n, s);
      forall x | x in Order(d, n) && k in TableAt(d, x) ensures x == s {
        OnlyOne(d, n, k, x, i);
      }
    }
  }

  lemma HitOfLevel(d: Disk, n: nat, f: nat)
    requires |d.levels| == LM_MAX_LEVELS && n <= |d.levels[0]|
    ensures f in Hit(d, n, true) ==> f in d.levels[1]
  {
  }

  lemma OnlyOne(d: Disk, n: nat, k: Blob, x: Source, i: nat)
    requires DiskTree(d) && n <= |d.levels[0]| && k !in Front(d, n)
    requires i < |Hit(d, n, true)| && k in TableAt(d, Source(1, Hit(d, n, true)[i])) && x in Order(d, n) && k in TableAt(d, x)
    ensures x == Source(1, Hit(d, n, true)[i])
  {
    hide Overlay, TableAt, Meets, SortById, Distinct, Order, Select;
    var hit, ts := Hit(d, n, true), Tables(d, Sources(1, Hit(d, n, true)));
    OrderHas(d, n, x);
    InOverlay(d, Captured(d, n), k);
    forall j | 0 <= j < n ensures k !in TableAt(d, Source(0, d.levels[0][..n][j])) {
      assert Captured(d, n)[j] in Captured(d, n);
    }
    assert x.lvl == 1;
    SelectApart(d, d.levels[1], Front(d, n), true);
    var j :| 0 <= j < |hit| && hit[j] == x.fid;
    assert ts[j] == TableAt(d, x) && ts[i] == TableAt(d, Source(1, hit[i]));
  }

  /** In a list by number, the last table that has a key is that of the greatest number. */
  lemma GreatestCounts(d: Disk, ss: seq<Source>, s: Source, k: Blob)
    requires ByNumber(ss) && s in ss && k in TableAt(d, s) && forall x :: x in ss && k in TableAt(d, x) && x != s ==> x.fid < s.fid
    ensures Get(Overlay(Tables(d, ss)), k) == Some(TableAt(d, s)[k])
  {
    hide Overlay, TableAt;
    var ts := Tables(d, ss);
    InOverlay(d, ss, k);
    var i := OverlayLast(ts, k);
    var j :| 0 <= j < |ss| && ss[j] == s;
    assert ts[j] == TableAt(d, s) && ss[i] in ss;
  }

  /** With numbers in order and room on level 1 every compaction keeps all answers. */
  lemma OrderedKept(d: Disk, n: nat)
    requires DiskTree(d) && Ordered(d) && n <= |d.levels[0]| && Room(d)
    ensures forall k :: KeptAt(d, n, k)
  {
    hide Distinct, Apart, InReadingOrder, InNumberOrder, Later;
    forall k ensures KeptAt(d, n, k) {
      if k in InReadingOrder(d, n) { OrderedSame(d, n, k); }
    }
  }

  /** The numbers stay in order exactly when the new file, if there is one, got its number before every file that was
      registered on level 0 while the compaction ran. */
  lemma OrderedAfter(d: Disk, n: nat, fid: nat)
    requires DiskTree(d) && Ordered(d) && 0 < n <= |d.levels[0]| && Unused(d, fid)
    ensures Ordered(Compacted(d, n, fid)) <==> Output(d, n) == map[] || !Room(d) || forall g :: g in d.levels[0][n..] ==> fid < g
  {
    hide Output, Order, Apart, Distinct, Front;
    var e, rest := Compacted(d, n, fid), d.levels[0][n..];
    assert e.levels[0] == rest && forall g :: g in rest ==> g in d.levels[0];
    assert forall f :: f in Hit(d, n, false) ==> f in d.levels[1];
    if Output(d, n) != map[] && Room(d) { assert fid in e.levels[1]; }
  }

  /** A flush keeps them in order: its file's number is greater than all others. */
  lemma OrderedFlush(d: Disk, fid: nat, t: Table)
    requires DiskTree(d) && DiskOK(d, fid) && t != map[]
    ensures DiskTree(AddTable(d, fid, t))
    ensures Ordered(d) ==> Ordered(AddTable(d, fid, t))
  {
    hide Clean;
    var e := AddTable(d, fid, t);
    assert forall f :: f in e.levels[0] ==> f in d.levels[0] || f == fid;
    assert forall l :: 1 <= l < |d.levels| ==> e.levels[l] == d.levels[l];
    var ts, us := LevelTables(d, 1), LevelTables(e, 1);
    assert ts == us;
  }

  // ---------- When they do not ----------

  /** A file that is registered while a compaction of all older ones runs, with a number below that of the compaction's
      new file: the next compaction gives every key of both the older of its two records. */
  lemma LateFileLoses(d: Disk, n: nat, fid: nat, fid2: nat, k: Blob)
    requires DiskTree(d) && Room(d) && 0 < n == |d.levels[0]| - 1 && Unused(d, fid) && d.levels[0][n] < fid
    requires k in TableAt(d, Source(0, d.levels[0][n])) && k in Output(d, n)
    requires var e := Compacted(d, n, fid); Room(e) && Unused(e, fid2)
    ensures var e := Compacted(d, n, fid);
            && FindDisk(d, 0, k) == FindDisk(e, 0, k) == Some(TableAt(d, Source(0, d.levels[0][n]))[k])
            && |e.levels[0]| == 1 && Present(FindDisk(Compacted(e, 1, fid2), 0, k)) == Present(Some(Output(d, n)[k]))
  {
    hide FindDisk, Compacted, Overlay, Output, InNumberOrder, Front, HitTable, Distinct, Apart, Unused, Bottom, TableAt;
    var e, g := Compacted(d, n, fid), d.levels[0][n];
    LateFirst(d, n, k);
    ReadsAfter(d, n, fid, k);
    Reads(d, k);
    Parts(d, n, k);
    LateSources(d, n, fid, k);
    TreeAfter(d, n, fid);
    OutputKeys(e, 1, k);
    ReadsAfter(e, 1, fid2, k);
    Parts(e, 1, k);
    NoTablesLeft(e);
    if Bottom(e) { NothingBelow(e, 2, k); }
  }

  lemma NoTablesLeft(e: Disk)
    requires |e.levels| == LM_MAX_LEVELS && |e.levels[0]| == 1
    ensures Later(e, 1) == map[]
  {
    assert e.levels[0][1..] == [];
  }

  lemma LateFirst(d: Disk, n: nat, k: Blob)
    requires |d.levels| == LM_MAX_LEVELS && n == |d.levels[0]| - 1
    ensures Get(Later(d, n), k) == Get(TableAt(d, Source(0, d.levels[0][n])), k)
  {
    OverlaySingle(TableAt(d, Source(0, d.levels[0][n])));
    assert Tables(d, Sources(0, d.levels[0][n..])) == [TableAt(d, Source(0, d.levels[0][n]))];
  }

  /** The next compaction's sources: the late file and, with the greater number, the new one. */
  lemma LateSources(d: Disk, n: nat, fid: nat, k: Blob)
    requires DiskTree(d) && Room(d) && 0 < n == |d.levels[0]| - 1 && Unused(d, fid) && d.levels[0][n] < fid
    requires k in TableAt(d, Source(0, d.levels[0][n])) && k in Output(d, n)
    ensures var e := Compacted(d, n, fid); |e.levels[0]| == 1 && Get(InNumberOrder(e, 1), k) == Some(Output(d, n)[k])
  {
    hide Compacted, Overlay, Output, Meets, Distinct, Apart, Unused, TableAt, Select, Front, SortById;
    var e, g, x := Compacted(d, n, fid), d.levels[0][n], Source(1, fid);
    LateLevels(d, n, fid);
    TreeAfter(d, n, fid);
    NewUnmerged(d, n, fid);
    FileAfter(d, n, fid, x);
    LateFile(d, n, fid);
    FrontOne(e, k);
    SharedMeets(Output(d, n), Front(e, 1), k);
    assert fid in Hit(e, 1, true);
    SortSorted(Captured(e, 1) + Sources(1, Hit(e, 1, true)));
    OrderHas(e, 1, x);
    forall y | y in Order(e, 1) && k in TableAt(e, y) && y != x ensures y.fid < fid {
      OrderHas(e, 1, y);
      if y.lvl == 1 { OneHolder(e, fid, y.fid, k); }
    }
    GreatestCounts(e, Order(e, 1), x, k);
  }

  lemma LateLevels(d: Disk, n: nat, fid: nat)
    requires DiskTree(d) && Room(d) && 0 < n == |d.levels[0]| - 1 && Output(d, n) != map[]
    ensures var e := Compacted(d, n, fid); e.levels[0] == [d.levels[0][n]] && fid in e.levels[1]
  {
    hide Output, Order, Distinct, Apart, Front;
  }

  lemma LateFile(d: Disk, n: nat, fid: nat)
    requires DiskTree(d) && 0 < n == |d.levels[0]| - 1 && Unused(d, fid)
    ensures var s := Source(0, d.levels[0][n]); TableAt(Compacted(d, n, fid), s) == TableAt(d, s)
  {
    hide Output, Order, Apart, Front, TableAt, Compacted;
    OrderHas(d, n, Source(0, d.levels[0][n]));
    FileAfter(d, n, fid, Source(0, d.levels[0][n]));
  }

  lemma FrontOne(e: Disk, k: Blob)
    requires |e.levels| == LM_MAX_LEVELS && |e.levels[0]| == 1
    ensures Front(e, 1) == TableAt(e, Source(0, e.levels[0][0])) && e.levels[0][..1] == e.levels[0]
  {
    OverlaySingle(TableAt(e, Source(0, e.levels[0][0])));
    assert Tables(e, Captured(e, 1)) == [TableAt(e, Source(0, e.levels[0][0]))];
  }

  lemma OneHolder(d: Disk, f: nat, g: nat, k: Blob)
    requires DiskTree(d) && f in d.levels[1] && g in d.levels[1] && k in TableAt(d, Source(1, f)) && k in TableAt(d, Source(1, g))
    ensures f == g
  {
    hide Distinct, TableAt;
    var i :| 0 <= i < |d.levels[1]| && d.levels[1][i] == f;
    var j :| 0 <= j < |d.levels[1]| && d.levels[1][j] == g;
    var ts := LevelTables(d, 1);
    assert ts[i] == TableAt(d, Source(1, f)) && ts[j] == TableAt(d, Source(1, g));
  }

  /** Four files say `v`, and while they are compacted a fifth is flushed that says `w`. The compaction's file gets
      number 6, and the next compaction brings back `v`. */
  lemma LosingRun(k: Blob, v: Blob, w: Blob)
    requires v != w
    ensures var was, now := map[k := Live(v)], map[k := Live(w)];
            var d := Disk([[1, 2, 3, 4, 5], [], [], [], [], [], []], map[(0, 1) := was, (0, 2) := was, (0, 3) := was, (0, 4) := was, (0, 5) := now]);
            var e := Compacted(d, 4, 6);
            && Ordered(d) && FindDisk(d, 0, k) == FindDisk(e, 0, k) == Some(Live(w))
            && |e.levels[0]| == 1 && Present(FindDisk(Compacted(e, 1, 7), 0, k)) == Some(v)
  {
    hide FindDisk, Compacted, Output, Distinct, Apart, Unused, DiskTree, Ordered;
    var was, now := map[k := Live(v)], map[k := Live(w)];
    var d := Disk([[1, 2, 3, 4, 5], [], [], [], [], [], []], map[(0, 1) := was, (0, 2) := was, (0, 3) := was, (0, 4) := was, (0, 5) := now]);
    FiveFiles(d, k, was, now);
    FiveAfter(d);
    LateFileLoses(d, 4, 6, 7, k);
  }

  lemma FiveFiles(d: Disk, k: Blob, was: Table, now: Table)
    requires d == Disk([[1, 2, 3, 4, 5], [], [], [], [], [], []], map[(0, 1) := was, (0, 2) := was, (0, 3) := was, (0, 4) := was, (0, 5) := now])
    requires k in was && k in now && was[k].Live?
    ensures DiskTree(d) && Ordered(d) && Unused(d, 6) && k in Output(d, 4) && Output(d, 4)[k] == was[k]
    ensures TableAt(d, Source(0, d.levels[0][4])) == now
  {
    hide Output, Meets, InNumberOrder, InReadingOrder, DiskTree;
    FiveTree(d, k, was, now);
    var ts := Tables(d, Captured(d, 4));
    assert ts[3] == TableAt(d, Source(0, 4)) == was;
    OverlayAt(ts, 3, k);
    FrontIn(d, 4, k);
    OrderedSame(d, 4, k);
    OutputKeys(d, 4, k);
  }

  lemma FiveTree(d: Disk, k: Blob, was: Table, now: Table)
    requires d == Disk([[1, 2, 3, 4, 5], [], [], [], [], [], []], map[(0, 1) := was, (0, 2) := was, (0, 3) := was, (0, 4) := was, (0, 5) := now])
    requires k in was && k in now
    ensures DiskTree(d)
  {
    assert forall l :: 1 <= l < LM_MAX_LEVELS ==> d.levels[l] == [];
  }

  lemma FrontIn(d: Disk, n: nat, k: Blob)
    requires |d.levels| == LM_MAX_LEVELS && n <= |d.levels[0]| && k in Front(d, n)
    ensures k in InReadingOrder(d, n) && InReadingOrder(d, n)[k] == Front(d, n)[k]
  {
    hide Front, HitTable;
  }

  lemma FiveAfter(d: Disk)
    requires |d.levels| == LM_MAX_LEVELS && d.levels == [[1, 2, 3, 4, 5], [], [], [], [], [], []] && forall f :: f in d.files ==> f.0 == 0
    ensures var e := Compacted(d, 4, 6); Room(e) && Unused(e, 7)
  {
    hide Output, Order;
    var e := Compacted(d, 4, 6);
    assert d.levels[0][4..] == [5] && Hit(d, 4, false) == [];
    assert forall f :: f in e.files ==> f in d.files || f == (1, 6);
  }

  // ---------- While the sources are taken off ----------

  /** The moment when the new file is registered and level 0's sources are gone, but not yet those of level 1. */
  ghost function Between(d: Disk, n: nat, fid: nat): Disk
    requires |d.levels| == LM_MAX_LEVELS && n <= |d.levels[0]|
  {
    var gone := set f | f in d.levels[0][..n] :: (0 as nat, f);
    Disk(d.levels[0 := d.levels[0][n..]][1 := d.levels[1] + [fid]], d.files[(1, fid) := Output(d, n)] - gone)
  }

  /** At that moment a read of a key that a merged file of level 1 has finds that old record first, whatever level 0's
      sources said and the new file says. */
  lemma BetweenStale(d: Disk, n: nat, fid: nat, k: Blob)
    requires DiskTree(d) && 0 < n <= |d.levels[0]| && Unused(d, fid) && k !in Later(d, n) && k in HitTable(d, n, true)
    ensures FindDisk(d, 0, k) == Some(InReadingOrder(d, n)[k])
    ensures |Between(d, n, fid).levels| == LM_MAX_LEVELS && FindDisk(Between(d, n, fid), 0, k) == Some(HitTable(d, n, true)[k])
  {
    hide FindDisk, FindLevel, Overlay, Output, Apart, Distinct, TableAt, Select, Front, Between;
    var e := Between(d, n, fid);
    Reads(d, k);
    Parts(d, n, k);
    BetweenShape(d, n, fid);
    BetweenTables(d, n, fid);
    Level0Reads(e, 0, k);
    assert e.levels[0][..|e.levels[0]| - 0] == e.levels[0];
    var i := OverlayLast(LevelTables(d, 1), k);
    ApartAt(LevelTables(d, 1), i, k);
    assert LevelTables(e, 1)[i] == LevelTables(d, 1)[i];
    Level1First(e, 0, i, k);
    TopTwo(e, k);
  }

  lemma ApartAt(ts: seq<Table>, i: nat, k: Blob)
    requires Apart(ts) && i < |ts| && k in ts[i]
    ensures forall j :: 0 <= j < i ==> k !in ts[j]
  {
  }

  lemma TopTwo(d: Disk, k: Blob)
    requires |d.levels| == LM_MAX_LEVELS
    ensures FindDisk(d, 0, k) == Or(FindLevel(d, 0, 0, k), Or(FindLevel(d, 1, 0, k), FindDisk(d, 2, k)))
  {
    hide FindLevel;
  }

  lemma BetweenShape(d: Disk, n: nat, fid: nat)
    requires |d.levels| == LM_MAX_LEVELS && n <= |d.levels[0]|
    ensures var e := Between(d, n, fid);
            |e.levels| == LM_MAX_LEVELS && e.levels[0] == d.levels[0][n..] && e.levels[1] == d.levels[1] + [fid]
  {
    hide Output;
  }

  lemma BetweenTables(d: Disk, n: nat, fid: nat)
    requires DiskTree(d) && n <= |d.levels[0]| && Unused(d, fid)
    ensures var e := Between(d, n, fid);
            && |e.levels| == LM_MAX_LEVELS && Overlay(LevelTables(e, 0)) == Later(d, n)
            && |LevelTables(e, 1)| == |LevelTables(d, 1)| + 1 && LevelTables(e, 1)[..|LevelTables(d, 1)|] == LevelTables(d, 1)
  {
    hide Output, Overlay, Apart;
    var e, l0 := Between(d, n, fid), d.levels[0];
    BetweenShape(d, n, fid);
    forall i | 0 <= i < |l0[n..]| ensures TableAt(e, Source(0, l0[n..][i])) == TableAt(d, Source(0, l0[n..][i])) {
      RestUnmerged(d, n, l0[n..][i]);
    }
    assert LevelTables(e, 0) == Tables(d, Sources(0, l0[n..]));
    forall i | 0 <= i < |d.levels[1]| ensures TableAt(e, Source(1, d.levels[1][i])) == TableAt(d, Source(1, d.levels[1][i])) {
      assert d.levels[1][i] in d.levels[1];
    }
  }

  /** The first file of level 1 that has the key answers. */
  lemma {:induction false} Level1First(d: Disk, i: nat, j: nat, k: Blob)
    requires |d.levels| == LM_MAX_LEVELS && i <= j < |d.levels[1]| && k in LevelTables(d, 1)[j]
    requires forall x :: i <= x < j ==> k !in LevelTables(d, 1)[x]
    ensures FindLevel(d, 1, i, k) == Some(LevelTables(d, 1)[j][k])
    decreases j - i
  {
    if i < j { Level1First(d, i + 1, j, k); }
  }

  // ---------- As the write path uses it ----------

  /** A compaction when it ends: how many files of level 0 there were when it began, the number its new file got,
      and whether the worker then emptied the log. */
  datatype Job = Job(captured: nat, fid: nat, empties: bool)

  /** Its number is the next one, or was the next one while it ran and is not used by any other file. */
  ghost predicate JobOK(d: Disk, nextFile: nat, job: Job) {
    && |d.levels| == LM_MAX_LEVELS && job.captured <= |d.levels[0]| && job.fid <= nextFile && Unused(d, job.fid)
  }

  /** No answer changes. */
  ghost predicate AllKept(d: Disk, n: nat)
    requires |d.levels| == LM_MAX_LEVELS && n <= |d.levels[0]|
  {
    n == 0 || forall k :: KeptAt(d, n, k)
  }

  /** Its number is smaller than that of every file registered on level 0 while it ran. */
  ghost predicate InTurn(d: Disk, job: Job)
    requires |d.levels| == LM_MAX_LEVELS && job.captured <= |d.levels[0]|
  {
    job.captured == 0 || forall g :: g in d.levels[0][job.captured..] ==> job.fid < g
  }

  lemma InTurnKept(d: Disk, nextFile: nat, job: Job)
    requires DiskTree(d) && JobOK(d, nextFile, job) && Ordered(d)
    ensures Room(d) ==> AllKept(d, job.captured)
    ensures InTurn(d, job) ==> Ordered(Compacted(d, job.captured, job.fid))
  {
    hide Distinct, Apart, Filled, Unused, KeptAt, Ordered;
    if Room(d) { OrderedKept(d, job.captured); }
    if job.captured > 0 { OrderedAfter(d, job.captured, job.fid); }
  }

  function NextAfter(nextFile: nat, job: Job): nat {
    if job.captured > 0 && job.fid == nextFile then nextFile + 1 else nextFile
  }

  lemma JobDone(d: Disk, nextFile: nat, job: Job)
    requires DiskTree(d) && DiskOK(d, nextFile) && JobOK(d, nextFile, job)
    ensures var e := Compacted(d, job.captured, job.fid);
            && DiskTree(e) && DiskOK(e, NextAfter(nextFile, job)) && |e.levels[0]| == |d.levels[0]| - job.captured
            && (AllKept(d, job.captured) <==> forall k :: SameAnswer(d, e, k))
  {
    hide Distinct, Apart, Unused, KeptAt, SameAnswer, DiskOK;
    if job.captured > 0 {
      CompactExact(d, job.captured, job.fid);
      TreeAfter(d, job.captured, job.fid);
      FilesAfter(d, nextFile, job);
    } else {
      forall k ensures SameAnswer(d, d, k) { SameSelf(d, k); }
    }
  }

  lemma SameSelf(d: Disk, k: Blob)
    requires |d.levels| == LM_MAX_LEVELS
    ensures SameAnswer(d, d, k)
  {
    hide FindDisk;
  }

  lemma FilesAfter(d: Disk, nextFile: nat, job: Job)
    requires DiskOK(d, nextFile) && JobOK(d, nextFile, job) && job.captured > 0
    ensures DiskOK(Compacted(d, job.captured, job.fid), NextAfter(nextFile, job))
  {
    hide Output, Order, Front, NulFree;
    var n, e := job.captured, Compacted(d, job.captured, job.fid);
    OutputClean(d, n);
    assert forall f :: f in Hit(d, n, false) ==> f in d.levels[1];
    assert forall i :: 0 <= i < |e.levels[1]| ==> e.levels[1][i] in d.levels[1] || e.levels[1][i] == job.fid;
    assert forall i :: 0 <= i < |e.levels[0]| ==> e.levels[0][i] == d.levels[0][n..][i];
  }

  lemma OutputClean(d: Disk, n: nat)
    requires |d.levels| == LM_MAX_LEVELS && n <= |d.levels[0]| && forall f :: f in d.files ==> Clean(d.files[f])
    ensures Clean(Output(d, n))
  {
    hide NulFree, Overlay, Order;
    forall k | k in Output(d, n) ensures NulFree(k) {
      OutputKeys(d, n, k);
      InOverlay(d, Order(d, n), k);
      var s :| s in Order(d, n) && k in TableAt(d, s);
    }
  }
}
