/** The layered store: an active memtable, a frozen one on its way to disk, and levels of table files.
    A read searches the layers from newest to oldest, and is one latest-wins map whatever has been
    frozen, flushed or compacted in between. */
module Lsm {
  import opened Options
  import opened Octets
  import opened Memtable
  import opened Levels
  import opened Compaction
  import opened Merge
  import opened Wal

  /** How many files on the first level make a writer wait for compaction. */
  const L0_BACKPRESSURE := 8

  /** All layers. */
  datatype Layers = Layers(active: Table, frozen: Option<Table>, disk: Disk)

  function Find(l: Layers, k: Blob): Option<Entry>
    requires |l.disk.levels| == LM_MAX_LEVELS
  {
    if k in l.active then Some(l.active[k])
    else if l.frozen.Some? && k in l.frozen.value then Some(l.frozen.value[k])
    else FindDisk(l.disk, 0, k)
  }

  /** What a read returns: the value as a string, which ends at its first zero byte; empty when there is none. */
  function Answer(e: Option<Entry>): Blob {
    if Present(e).Some? then CString(Present(e).value) else []
  }

  /** The layers hold the map: each key's newest entry is its value, or a tombstone or nothing when it has none. */
  ghost predicate Holds(l: Layers, m: map<Blob, Blob>) {
    |l.disk.levels| == LM_MAX_LEVELS && forall k :: HoldsAt(l, m, k)
  }

  ghost predicate HoldsAt(l: Layers, m: map<Blob, Blob>, k: Blob)
    requires |l.disk.levels| == LM_MAX_LEVELS
  {
    Present(Find(l, k)) == if k in m then Some(m[k]) else None
  }

  // ---------- Writing, freezing, flushing ----------

  ghost function Latest(m: map<Blob, Blob>, op: Op): map<Blob, Blob> {
    match op
    case Put(k, v) => m[k := v]
    case Delete(k) => m - {k}
  }

  ghost function LatestAll(m: map<Blob, Blob>, ops: seq<Op>): map<Blob, Blob> {
    if ops == [] then m else Latest(LatestAll(m, ops[..|ops| - 1]), ops[|ops| - 1])
  }

  /** A write of a key without zero bytes. */
  lemma WriteHolds(l: Layers, m: map<Blob, Blob>, op: Op)
    requires Holds(l, m) && NulFree(op.key)
    ensures Holds(l.(active := Apply(l.active, op)), Latest(m, op))
  {
    hide FindDisk, NulFree, CString;
    CStringWhole(op.key);
    forall k ensures HoldsAt(l.(active := Apply(l.active, op)), Latest(m, op), k) { assert HoldsAt(l, m, k); }
  }

  /** Freezing moves the active table one layer down. */
  lemma FreezeHolds(l: Layers, m: map<Blob, Blob>)
    requires Holds(l, m) && l.frozen == None
    ensures Holds(Layers(map[], Some(l.active), l.disk), m)
  {
    hide FindDisk;
    forall k ensures HoldsAt(Layers(map[], Some(l.active), l.disk), m, k) { assert HoldsAt(l, m, k); }
  }

  /** The layers after the frozen table went to disk and out of memory. */
  function FlushedOut(l: Layers, fid: nat): Layers
    requires |l.disk.levels| == LM_MAX_LEVELS && l.frozen.Some?
  {
    Layers(l.active, None, if l.frozen.value == map[] then l.disk else AddTable(l.disk, fid, l.frozen.value))
  }

  /** With room on level 0 a flush, which also destroys the frozen table, changes no answer of the layers left. */
  lemma FlushHolds(l: Layers, m: map<Blob, Blob>, fid: nat)
    requires Holds(l, m) && DiskOK(l.disk, fid) && l.frozen.Some? && |l.disk.levels[0]| < LM_MAX_SSTABLES_PER_LEVEL
    ensures Holds(FlushedOut(l, fid), m)
  {
    hide FindDisk, Clean;
    var t, n := l.frozen.value, FlushedOut(l, fid);
    forall k ensures HoldsAt(n, m, k) {
      assert HoldsAt(l, m, k);
      AddTableFinds(l.disk, fid, t, k);
    }
  }

  /** Without room the table is silently not registered: a flush keeps all answers exactly when level 0 has
      room or everything in the frozen table is also said elsewhere. */
  lemma FlushExact(l: Layers, fid: nat)
    requires |l.disk.levels| == LM_MAX_LEVELS && DiskOK(l.disk, fid) && l.frozen.Some?
    ensures (forall k :: Present(Find(FlushedOut(l, fid), k)) == Present(Find(l, k)))
            <==> |l.disk.levels[0]| < 1024 || forall k :: Redundant(l, k)
  {
    hide FindDisk;
    var t, n := l.frozen.value, FlushedOut(l, fid);
    if |l.disk.levels[0]| < LM_MAX_SSTABLES_PER_LEVEL {
      forall k ensures Present(Find(n, k)) == Present(Find(l, k)) { AddTableFinds(l.disk, fid, t, k); }
    } else {
      forall k ensures Present(Find(n, k)) == Present(Find(l, k)) <==> Redundant(l, k) { UnregisteredSame(l.disk, fid, t, k); }
    }
  }

  /** The frozen table's word on a key does not count, or the disk says the same. */
  ghost predicate Redundant(l: Layers, k: Blob)
    requires |l.disk.levels| == LM_MAX_LEVELS && l.frozen.Some?
  {
    k in l.frozen.value && k !in l.active ==> Present(Some(l.frozen.value[k])) == Present(FindDisk(l.disk, 0, k))
  }

  /** Letting a frozen table go that was not written out, as happens when the write of its file fails, keeps all
      answers exactly when everything in it is also said elsewhere. */
  lemma DropExact(l: Layers)
    requires |l.disk.levels| == LM_MAX_LEVELS && l.frozen.Some?
    ensures (forall k :: Present(Find(l.(frozen := None), k)) == Present(Find(l, k))) <==> forall k :: Redundant(l, k)
  {
    hide FindDisk;
    forall k ensures Present(Find(l.(frozen := None), k)) == Present(Find(l, k)) <==> Redundant(l, k) {}
  }

  lemma DropHolds(l: Layers, m: map<Blob, Blob>)
    requires Holds(l, m) && l.frozen.Some? && forall k :: Redundant(l, k)
    ensures Holds(l.(frozen := None), m)
  {
    hide FindDisk, Redundant;
    DropExact(l);
    forall k ensures HoldsAt(l.(frozen := None), m, k) { assert HoldsAt(l, m, k); }
  }

  /** A change of the files that changes no answer. */
  lemma SameAnswersHold(l: Layers, m: map<Blob, Blob>, e: Disk)
    requires Holds(l, m) && |e.levels| == LM_MAX_LEVELS && forall k :: SameAnswer(l.disk, e, k)
    ensures Holds(l.(disk := e), m)
  {
    hide FindDisk;
    forall k ensures HoldsAt(l.(disk := e), m, k) { assert HoldsAt(l, m, k) && SameAnswer(l.disk, e, k); }
  }

  // ---------- Zero bytes ----------

  /** No layer has a key with a zero byte. */
  ghost predicate LayersClean(l: Layers) {
    && |l.disk.levels| == LM_MAX_LEVELS && Clean(l.active) && (l.frozen.Some? ==> Clean(l.frozen.value))
    && forall f :: f in l.disk.files ==> Clean(l.disk.files[f])
  }

  /** So such a key is never found. */
  lemma ZeroKeyUnfound(l: Layers, k: Blob)
    requires LayersClean(l) && !NulFree(k)
    ensures Find(l, k) == None
  {
    hide NulFree;
    ZeroKeyOffDisk(l.disk, 0, k);
  }

  lemma {:induction false} ZeroKeyOffDisk(d: Disk, lvl: nat, k: Blob)
    requires |d.levels| == LM_MAX_LEVELS && lvl <= SEARCHED_LEVELS && !NulFree(k) && forall f :: f in d.files ==> Clean(d.files[f])
    ensures FindDisk(d, lvl, k) == None
    decreases SEARCHED_LEVELS - lvl
  {
    hide NulFree;
    if lvl < SEARCHED_LEVELS {
      ZeroKeyOffLevel(d, lvl, 0, k);
      ZeroKeyOffDisk(d, lvl + 1, k);
    }
  }

  lemma {:induction false} ZeroKeyOffLevel(d: Disk, lvl: nat, i: nat, k: Blob)
    requires lvl < |d.levels| && i <= |d.levels[lvl]| && !NulFree(k) && forall f :: f in d.files ==> Clean(d.files[f])
    ensures FindLevel(d, lvl, i, k) == None
    decreases |d.levels[lvl]| - i
  {
    hide NulFree;
    if i < |d.levels[lvl]| { ZeroKeyOffLevel(d, lvl, i + 1, k); }
  }

  /** A read right after a put returns the value put, whatever was written before, exactly when the value has no
      zero byte and the key has none either, or the value is empty. */
  lemma PutThenGet(l: Layers, k: Blob, v: Blob)
    requires LayersClean(l)
    ensures Answer(Find(l.(active := Apply(l.active, Put(k, v))), k)) == v <==> NulFree(v) && (NulFree(k) || v == [])
  {
    hide NulFree, CString, FindDisk;
    CStringWhole(k);
    CStringWhole(v);
    ApplyClean(l.active, Put(k, v));
    if !NulFree(k) {
      ZeroKeyUnfound(l.(active := Apply(l.active, Put(k, v))), k);
      EmptyIs();
    }
  }

  /** In an empty store: a value with a zero byte comes back cut, a key with one is not found, and what is left
      of that key answers although it was never written. */
  lemma ZeroByteExamples(v: Blob)
    requires NulFree(v) && v != []
    ensures var e := Layers(map[], None, EmptyDisk());
            && Answer(Find(e.(active := Apply(e.active, Put([1], [7, 0, 8]))), [1])) == [7]
            && Answer(Find(e.(active := Apply(e.active, Put([1, 0, 2], v))), [1, 0, 2])) == []
            && Answer(Find(e.(active := Apply(e.active, Put([1, 0, 2], v))), [1])) == v
  {
    hide NulFree, CString, FindDisk;
    EmptyFinds();
    CStringWhole(v);
    CutExamples();
  }

  lemma CutExamples()
    ensures CString([1]) == [1] && CString([7, 0, 8]) == [7] && CString([1, 0, 2]) == [1]
  {
    var a: Blob, b: Blob, c: Blob := [1], [7, 0, 8], [1, 0, 2];
    assert a[1..] == [] && b[1..] == [0, 8] && c[1..] == [0, 2];
    assert CString(b[1..]) == [] && CString(c[1..]) == [];
  }

  // ---------- Recovery ----------

  ghost predicate NulFreeKeys(ops: seq<Op>) {
    forall i :: 0 <= i < |ops| ==> NulFree(ops[i].key)
  }

  /** A memtable rebuilt from all operations answers like the map. */
  lemma {:induction false} RebuiltHolds(ops: seq<Op>, d: Disk)
    requires |d.levels| == LM_MAX_LEVELS && NulFreeKeys(ops) && forall k :: FindDisk(d, 0, k) == None
    ensures Holds(Layers(ApplyAll(map[], ops), None, d), LatestAll(map[], ops))
    decreases |ops|
  {
    hide FindDisk;
    if ops == [] {
      forall k ensures HoldsAt(Layers(map[], None, d), map[], k) {}
    } else {
      var n := |ops| - 1;
      RebuiltHolds(ops[..n], d);
      WriteHolds(Layers(ApplyAll(map[], ops[..n]), None, d), LatestAll(map[], ops[..n]), ops[n]);
    }
  }

  /** After a crash at any byte of the log, the store rebuilt from it holds the map of exactly those
      operations whose records had been written completely. */
  lemma RecoveredHolds(ops: seq<Op>, seqNos: seq<int>, n: nat)
    requires |seqNos| == |ops| && Loggable(ops) && n <= |Log(ops, seqNos)|
    ensures var kept := ops[..WholeRecords(ops, seqNos, n)];
            Holds(Layers(ApplyAll(map[], Replayed(Log(ops, seqNos)[..n]).0), None, EmptyDisk()), LatestAll(map[], kept))
  {
    hide Replayed, ApplyAll, LatestAll, WholeRecords, Log, NulFree, Fits;
    CrashRecovery(ops, seqNos, n);
    EmptyFinds();
    RebuiltHolds(ops[..WholeRecords(ops, seqNos, n)], EmptyDisk());
  }

  /** The store that a restart builds: files are not registered again, and the log is all there is. */
  function Rebuilt(file: Blob): Layers {
    Layers(ApplyAll(map[], Replayed(file).0), None, EmptyDisk())
  }

  /** Whether one of the operations writes the key. */
  ghost predicate Touched(ops: seq<Op>, k: Blob) {
    exists i :: 0 <= i < |ops| && ops[i].key == k
  }

  /** The map of a history, seen from a point in it: what was written since, and what was there before. */
  lemma {:induction false} LatestSince(m: map<Blob, Blob>, ops: seq<Op>, k: Blob)
    ensures var a, b := LatestAll(m, ops), LatestAll(map[], ops);
            if Touched(ops, k) then (k in a <==> k in b) && (k in a ==> a[k] == b[k])
            else k !in b && (k in a <==> k in m) && (k in a ==> a[k] == m[k])
    decreases |ops|
  {
    if ops != [] {
      var n := |ops| - 1;
      LatestSince(m, ops[..n], k);
      TouchedMore(ops, k);
    }
  }

  lemma TouchedMore(ops: seq<Op>, k: Blob)
    requires ops != []
    ensures var n := |ops| - 1; Touched(ops, k) <==> Touched(ops[..n], k) || ops[n].key == k
  {
    var n := |ops| - 1;
    if Touched(ops, k) {
      var i :| 0 <= i < |ops| && ops[i].key == k;
      if i < n { assert ops[..n][i].key == k; }
    }
    if Touched(ops[..n], k) {
      var i :| 0 <= i < n && ops[..n][i].key == k;
      assert ops[i].key == k;
    }
  }

  lemma {:induction false} LatestMore(m: map<Blob, Blob>, a: seq<Op>, b: seq<Op>)
    ensures LatestAll(m, a + b) == LatestAll(LatestAll(m, a), b)
    decreases |b|
  {
    hide Latest;
    if b == [] {
      assert a + b == a;
    } else {
      assert (a + b)[..|a + b| - 1] == a + b[..|b| - 1];
      LatestMore(m, a, b[..|b| - 1]);
    }
  }

  /** The log was emptied after `cut` operations. A restart gives back the map exactly when every key that was
      present then has been written again since. */
  lemma RestartExact(ops: seq<Op>, cut: nat, seqNos: seq<int>)
    requires |seqNos| == |ops| && cut <= |ops| && Loggable(ops[cut..])
    ensures Holds(Rebuilt(Log(ops[cut..], seqNos[cut..])), LatestAll(map[], ops))
            <==> forall k :: k in LatestAll(map[], ops[..cut]) ==> Touched(ops[cut..], k)
  {
    hide Replayed, ApplyAll, LatestAll, Log, Loggable, Touched, Holds;
    var since, before := ops[cut..], LatestAll(map[], ops[..cut]);
    var a, b := LatestAll(map[], ops), LatestAll(map[], since);
    assert ops == ops[..cut] + since;
    LatestMore(map[], ops[..cut], since);
    forall k ensures (k in a <==> k in b) && (k in a ==> a[k] == b[k]) <==> (k in before ==> Touched(since, k)) { LatestSince(before, since, k); }
    WholeLog(since, seqNos[cut..]);
    LogHolds(since, seqNos[cut..]);
    OneMap(Rebuilt(Log(since, seqNos[cut..])), a, b);
    SameMap(a, b);
  }

  lemma SameMap(a: map<Blob, Blob>, b: map<Blob, Blob>)
    ensures a == b <==> forall k :: (k in a <==> k in b) && (k in a ==> a[k] == b[k])
  {
  }

  /** Layers hold one map only. */
  lemma OneMap(l: Layers, a: map<Blob, Blob>, b: map<Blob, Blob>)
    requires Holds(l, b)
    ensures Holds(l, a) <==> a == b
  {
    hide Find;
    if Holds(l, a) {
      forall k ensures (k in a <==> k in b) && (k in a ==> a[k] == b[k]) { assert HoldsAt(l, a, k) && HoldsAt(l, b, k); }
      assert a == b;
    }
  }

  lemma WholeLog(ops: seq<Op>, seqNos: seq<int>)
    requires |seqNos| == |ops| && Loggable(ops)
    ensures Replayed(Log(ops, seqNos)).0 == ops
  {
    hide ReadNext, Log;
    ReplayLog(ops, seqNos, []);
    assert Log(ops, seqNos) + [] == Log(ops, seqNos);
    NothingLeft();
    StopsAt([]);
    assert ops + [] == ops;
  }

  lemma LogHolds(ops: seq<Op>, seqNos: seq<int>)
    requires |seqNos| == |ops| && Loggable(ops) && Replayed(Log(ops, seqNos)).0 == ops
    ensures Holds(Rebuilt(Log(ops, seqNos)), LatestAll(map[], ops))
  {
    hide Replayed, ApplyAll, LatestAll, Log, Holds, NulFree, Fits;
    EmptyFinds();
    RebuiltHolds(ops, EmptyDisk());
  }

  /** A run that loses data: one put, a compaction of level 0 that empties the log, a restart. */
  lemma TruncationLoses(k: Blob, v: Blob, seqNo: int)
    requires Loggable([Put(k, v)])
    ensures LatestAll(map[], [Put(k, v)]) == map[k := v]
    ensures !Holds(Rebuilt(Log([Put(k, v)][1..], [seqNo][1..])), LatestAll(map[], [Put(k, v)]))
  {
    hide Replayed, ApplyAll, Log, Holds;
    var ops := [Put(k, v)];
    assert ops[..1] == ops && ops[1..] == [] && ops[..0] == [] && LatestAll(map[], ops[..0]) == map[];
    assert k in LatestAll(map[], ops[..1]);
    RestartExact(ops, 1, [seqNo]);
  }

  // ---------- The write path ----------

  /** The layers are in order and, as long as nothing spoiled it, hold the map. */
  ghost predicate StoreOK(l: Layers, nextFile: nat, intact: bool, latest: map<Blob, Blob>) {
    && DiskOK(l.disk, nextFile) && DiskTree(l.disk) && LayersClean(l)
    && (intact ==> Holds(l, latest) && forall k :: k in latest ==> NulFree(k))
  }

  /** The log holds the operations since it was last emptied, and all of them make up the map. */
  ghost predicate LogOK(log: Blob, ops: seq<Op>, seqNos: seq<int>, cut: nat, latest: map<Blob, Blob>) {
    && |seqNos| == |ops| && cut <= |ops| && log == Log(ops[cut..], seqNos[cut..]) && latest == LatestAll(map[], ops)
  }

  lemma StoreLevels(l: Layers, nextFile: nat, intact: bool, latest: map<Blob, Blob>)
    requires StoreOK(l, nextFile, intact, latest)
    ensures DiskOK(l.disk, nextFile) && LayersClean(l) && |l.disk.levels| == LM_MAX_LEVELS
    ensures intact ==> Holds(l, latest)
    ensures intact ==> forall k :: k in latest ==> NulFree(k)
  {
    hide DiskOK, Holds;
    DiskShape(l.disk, nextFile);
  }

  lemma FreezeOK(l: Layers, nextFile: nat, intact: bool, latest: map<Blob, Blob>)
    requires StoreOK(l, nextFile, intact, latest) && l.frozen == None
    ensures StoreOK(Layers(map[], Some(l.active), l.disk), nextFile, intact, latest)
  {
    hide Holds, DiskOK, NulFree;
    if intact { FreezeHolds(l, latest); }
  }

  lemma FlushOK(l: Layers, nextFile: nat, intact: bool, latest: map<Blob, Blob>, written: bool)
    requires StoreOK(l, nextFile, intact, latest) && l.frozen.Some? && |l.disk.levels| == LM_MAX_LEVELS && |l.disk.levels[0]| <= L0_BACKPRESSURE
    ensures StoreOK(Flushed(l, nextFile, written), NumberAfter(nextFile, l.frozen.value), intact, latest)
    ensures |Flushed(l, nextFile, written).disk.levels| == LM_MAX_LEVELS && |Flushed(l, nextFile, written).disk.levels[0]| <= |l.disk.levels[0]| + 1
    ensures Ordered(l.disk) ==> Ordered(Flushed(l, nextFile, written).disk)
    ensures Flushed(l, nextFile, written).disk.levels[1] == l.disk.levels[1]
  {
    hide Holds, DiskOK, NulFree, Clean, AddTable, DiskTree, Ordered;
    var t := l.frozen.value;
    AddTableFinds(l.disk, nextFile, t, []);
    AddTableShape(l.disk, nextFile, t);
    DiskLater(l.disk, nextFile);
    if t != map[] { OrderedFlush(l.disk, nextFile, t); }
    if intact { FlushHolds(l, latest, nextFile); }
  }

  lemma CompactOK(l: Layers, nextFile: nat, intact: bool, latest: map<Blob, Blob>, job: Job)
    requires StoreOK(l, nextFile, intact, latest) && JobOK(l.disk, nextFile, job)
    ensures var e := Compacted(l.disk, job.captured, job.fid);
            && StoreOK(l.(disk := e), NextAfter(nextFile, job), intact && AllKept(l.disk, job.captured), latest)
            && |e.levels[0]| == |l.disk.levels[0]| - job.captured
  {
    hide Holds, NulFree, SameAnswer, KeptAt, AllKept, Compacted, DiskTree, JobOK;
    JobDone(l.disk, nextFile, job);
    if intact && AllKept(l.disk, job.captured) { SameAnswersHold(l, latest, Compacted(l.disk, job.captured, job.fid)); }
  }

  lemma WriteOK(l: Layers, nextFile: nat, intact: bool, latest: map<Blob, Blob>, op: Op)
    requires StoreOK(l, nextFile, intact, latest)
    ensures StoreOK(l.(active := Apply(l.active, op)), nextFile, intact && NulFree(op.key), Latest(latest, op))
  {
    hide Holds, DiskOK, NulFree, Clean, Apply;
    ApplyClean(l.active, op);
    if intact && NulFree(op.key) { WriteHolds(l, latest, op); }
  }

  lemma LogOKMore(log: Blob, ops: seq<Op>, seqNos: seq<int>, cut: nat, latest: map<Blob, Blob>, op: Op, seqNo: int)
    requires LogOK(log, ops, seqNos, cut, latest)
    ensures LogOK(log + OpRecord(op, seqNo), ops + [op], seqNos + [seqNo], cut, Latest(latest, op))
  {
    hide Log, OpRecord, Latest;
    LogMore(ops[cut..], seqNos[cut..], op, seqNo);
    assert (ops + [op])[..|ops|] == ops && (ops + [op])[cut..] == ops[cut..] + [op] && (seqNos + [seqNo])[cut..] == seqNos[cut..] + [seqNo];
  }

  lemma LogEmptied(log: Blob, ops: seq<Op>, seqNos: seq<int>, cut: nat, latest: map<Blob, Blob>)
    requires LogOK(log, ops, seqNos, cut, latest)
    ensures LogOK([], ops, seqNos, |ops|, latest)
  {
  }

  lemma LetGoOK(l: Layers, nextFile: nat, intact: bool, latest: map<Blob, Blob>, safe: bool)
    requires StoreOK(l, nextFile, intact, latest) && (l.frozen.Some? && safe ==> |l.disk.levels| == LM_MAX_LEVELS && forall k :: Redundant(l, k))
    ensures StoreOK(l.(frozen := None), nextFile, intact && safe, latest)
  {
    hide Holds, DiskOK, NulFree, Clean, Redundant;
    if intact && safe && l.frozen.Some? { DropHolds(l, latest); }
    assert l.frozen == None ==> l.(frozen := None) == l;
  }

  lemma NewStore()
    ensures StoreOK(Layers(map[], None, EmptyDisk()), 1, true, map[]) && LogOK([], [], [], 0, map[])
    ensures |EmptyDisk().levels| == LM_MAX_LEVELS && |EmptyDisk().levels[0]| == 0 && Ordered(EmptyDisk()) && Room(EmptyDisk())
  {
    hide FindDisk, NulFree;
    EmptyFinds();
    EmptyOK();
    RebuiltHolds([], EmptyDisk());
  }

  /** The store and the log after a restart from the front part of a log. */
  lemma ReopenOK(file: Blob, logged: seq<Op>, nos: seq<int>)
    requires |nos| == |logged| && Loggable(logged) && file <= Log(logged, nos)
    ensures var k := WholeRecords(logged, nos, |file|); var m := LatestAll(map[], logged[..k]);
            && StoreOK(Layers(ApplyAll(map[], Replayed(file).0), None, EmptyDisk()), 1, true, m)
            && LogOK(Kept(file), logged[..k], nos[..k], 0, m)
    ensures |EmptyDisk().levels| == LM_MAX_LEVELS && |EmptyDisk().levels[0]| == 0 && Ordered(EmptyDisk()) && Room(EmptyDisk())
  {
    hide Replayed, ApplyAll, LatestAll, Log, Loggable, WholeRecords, Holds, Kept, Clean, NulFree, DiskOK;
    var k := WholeRecords(logged, nos, |file|);
    CrashRecovery(logged, nos, |file|);
    assert file == Log(logged, nos)[..|file|];
    KeptIs(file, logged, nos);
    assert logged[..k][0..] == logged[..k] && nos[..k][0..] == nos[..k];
    LoggablePart(logged, k);
    EmptyFinds();
    RebuiltHolds(logged[..k], EmptyDisk());
    EmptyOK();
    ApplyAllClean(map[], logged[..k]);
    LatestNulFree(logged[..k]);
  }

  class WritePath {
    var log: Blob
    var seqNo: int
    var active: Mem
    var frozen: Mem?
    var disk: Disk
    var nextFile: nat
    ghost var ops: seq<Op>
    ghost var seqNos: seq<int>
    ghost var latest: map<Blob, Blob>

    /** How many operations had been logged when the log was last emptied. */
    ghost var cut: nat

    /** No key with a zero byte has been written, and no frozen table that said something new was let go unwritten. */
    ghost var intact: bool

    /** The layers that hold data: a destroyed table holds none. */
    ghost function View(): Layers
      reads this, active, frozen
    {
      Layers(active.entries, if frozen == null || frozen.destroyed then None else Some(frozen.entries), disk)
    }

    /** The layers hold the latest-wins map, and the log the operations since it was last emptied. A frozen table
        may already be destroyed while the write path still points to it; until it is let go, level 0 may have
        one file more. */
    ghost predicate Valid()
      reads this, active, frozen
    {
      && !active.frozen && !active.destroyed && active != frozen
      && StoreOK(View(), nextFile, intact, latest) && LogOK(log, ops, seqNos, cut, latest)
      && |disk.levels| == LM_MAX_LEVELS && |disk.levels[0]| < L0_BACKPRESSURE + (if frozen != null && frozen.destroyed then 1 else 0)
    }

    constructor ()
      ensures Valid() && fresh(active) && frozen == null && latest == map[] && ops == [] && intact && Ordered(disk) && Room(disk)
      ensures View() == Layers(map[], None, EmptyDisk()) && log == [] && seqNo == 0 && nextFile == 1
    {
      active := new Mem();
      frozen := null;
      log, seqNo, disk, nextFile := [], 0, EmptyDisk(), 1;
      ops, seqNos, latest, cut, intact := [], [], map[], 0, true;
      new;
      hide StoreOK, LogOK;
      NewStore();
    }

    /** A restart: the log, cut at any byte, is replayed into a new table, and no file is registered. The store
        holds the map of exactly those operations whose records are whole. */
    constructor Reopen(file: Blob, ghost logged: seq<Op>, ghost nos: seq<int>)
      requires |nos| == |logged| && Loggable(logged) && file <= Log(logged, nos)
      ensures Valid() && fresh(active) && frozen == null && intact && Ordered(disk) && Room(disk)
      ensures ops == logged[..WholeRecords(logged, nos, |file|)] && latest == LatestAll(map[], ops)
      ensures View() == Rebuilt(file) && log == Kept(file) && seqNo == 0 && nextFile == 1
    {
      hide StoreOK, LogOK, Replayed, ApplyAll, LatestAll, Log, Loggable, WholeRecords, Kept, EmptyDisk;
      ReopenOK(file, logged, nos);
      ghost var k := WholeRecords(logged, nos, |file|);
      var mt := new Mem();
      var kept := Replay(file, mt);
      active, frozen := mt, null;
      log, seqNo, disk, nextFile := kept, 0, EmptyDisk(), 1;
      ops, seqNos, latest, cut, intact := logged[..k], nos[..k], LatestAll(map[], logged[..k]), 0, true;
    }

    /** The record goes to the log first; if that fails nothing else happens. */
    method Append(op: Op, walOk: bool) returns (ok: bool)
      modifies this`log, this`seqNo
      ensures ok == walOk && seqNo == old(seqNo) + 1
      ensures log == if ok then old(log) + OpRecord(op, seqNo) else old(log)
    {
      seqNo := seqNo + 1;
      if !walOk {
        return false;
      }
      var rec := MakeRecord(TypeOf(op), seqNo, Payload(op));
      log := log + rec;
      ok := true;
    }

    /** A put. A full active table is first frozen, written to level 0 (or not, when that write fails) and let
        go; with many files on level 0 the writer waits in between until the worker has left fewer. While file
        numbers follow recency and level 1 has room, whatever the worker does keeps the answers right. */
    method WpPut(k: Blob, v: Blob, full: bool, written: bool, walOk: bool, worker: Option<Job>, runs: map<Source, seq<Rec>>) returns (code: int)
      requires Valid() && (full ==> frozen == null && Waits(Upon(active.entries, disk, nextFile, written), NumberAfter(nextFile, active.entries), worker, runs))
      modifies this, active
      ensures Valid() && (active == old(active) || fresh(active)) && (full ==> frozen == null) && (!full ==> frozen == old(frozen))
      ensures walOk ==> code == 0 && latest == old(latest)[k := v] && ops == old(ops) + [Put(k, v)]
      ensures !walOk ==> code == -1 && latest == old(latest) && ops == old(ops)
      ensures View() == Wrote(if full then Roomier(old(View()), old(nextFile), written, worker) else old(View()), Put(k, v), walOk)
      ensures log == Logged(if full && Empties(worker) then [] else old(log), Put(k, v), seqNo, walOk) && seqNo == old(seqNo) + 1
      ensures full ==> |disk.levels[0]| < 8
      ensures old(intact) && NulFree(k) && (full ==> written && Keeps(Upon(old(active.entries), old(disk), old(nextFile), written), worker)) ==> intact
      ensures old(Ordered(disk) && Room(disk)) && full ==> Keeps(Upon(old(active.entries), old(disk), old(nextFile), written), worker)
      ensures old(Ordered(disk)) && (full ==> worker == None || InTurn(Upon(old(active.entries), old(disk), old(nextFile), written), worker.value)) ==> Ordered(disk)
    {
      hide StoreOK, LogOK, Flushed, NulFree, Apply, OpRecord, JobOK, Runs, AllKept, Ordered, InTurn, Compacted;
      if full {
        MakeRoom(written, worker, runs);
      }
      code := LogAndPut(k, v, walOk);
    }

    /** The full table's way to level 0. */
    method MakeRoom(written: bool, worker: Option<Job>, runs: map<Source, seq<Rec>>)
      requires Valid() && frozen == null && Waits(Upon(active.entries, disk, nextFile, written), NumberAfter(nextFile, active.entries), worker, runs)
      modifies this, active
      ensures Valid() && fresh(active) && frozen == null && latest == old(latest) && ops == old(ops)
      ensures View() == Roomier(old(View()), old(nextFile), written, worker) && seqNo == old(seqNo)
      ensures log == if Empties(worker) then [] else old(log)
      ensures old(intact) && written && Keeps(Upon(old(active.entries), old(disk), old(nextFile), written), worker) ==> intact
      ensures old(Ordered(disk) && Room(disk)) ==> Keeps(Upon(old(active.entries), old(disk), old(nextFile), written), worker)
      ensures old(Ordered(disk)) && (worker == None || InTurn(Upon(old(active.entries), old(disk), old(nextFile), written), worker.value)) ==> Ordered(disk)
    {
      hide StoreOK, LogOK, Flushed, Redundant, JobOK, Runs, AllKept, Ordered, InTurn, Compacted;
      FreezeActive();
      FlushMemtable(written);
      if worker.Some? {
        Compact(worker.value, runs);
      }
      LetGo();
    }

    method LogAndPut(k: Blob, v: Blob, walOk: bool) returns (code: int)
      requires Valid()
      modifies this`log, this`seqNo, this`ops, this`seqNos, this`latest, this`intact, active`entries
      ensures Valid()
      ensures View() == Wrote(old(View()), Put(k, v), walOk) && log == Logged(old(log), Put(k, v), seqNo, walOk) && seqNo == old(seqNo) + 1
      ensures walOk ==> code == 0 && latest == old(latest)[k := v] && ops == old(ops) + [Put(k, v)]
      ensures !walOk ==> code == -1 && latest == old(latest) && ops == old(ops)
      ensures old(intact) && (NulFree(k) || !walOk) ==> intact
    {
      hide StoreOK, LogOK, NulFree, Apply, OpRecord;
      ghost var before, logged := View(), log;
      var ok := Append(Put(k, v), walOk);
      if !ok {
        return -1;
      }
      code := active.MtPut(k, v);
      Note(Put(k, v), before, logged);
    }

    /** A delete writes a tombstone. */
    method WpDelete(k: Blob, walOk: bool) returns (code: int)
      requires Valid()
      modifies this`log, this`seqNo, this`ops, this`seqNos, this`latest, this`intact, active`entries
      ensures Valid()
      ensures View() == Wrote(old(View()), Delete(k), walOk) && log == Logged(old(log), Delete(k), seqNo, walOk) && seqNo == old(seqNo) + 1
      ensures walOk ==> code == 0 && latest == old(latest) - {k} && ops == old(ops) + [Delete(k)]
      ensures !walOk ==> code == -1 && latest == old(latest) && ops == old(ops)
      ensures old(intact) && (NulFree(k) || !walOk) ==> intact
    {
      hide StoreOK, LogOK, NulFree, Apply, OpRecord;
      ghost var before, logged := View(), log;
      var ok := Append(Delete(k), walOk);
      if !ok {
        return -1;
      }
      code := active.MtDelete(k);
      Note(Delete(k), before, logged);
    }

    /** The proof's bookkeeping after a write. */
    ghost method Note(op: Op, before: Layers, logged: Blob)
      requires !active.frozen && !active.destroyed && active != frozen && |disk.levels| == LM_MAX_LEVELS
      requires |disk.levels[0]| < L0_BACKPRESSURE + (if frozen != null && frozen.destroyed then 1 else 0)
      requires StoreOK(before, nextFile, intact, latest) && View() == before.(active := Apply(before.active, op))
      requires LogOK(logged, ops, seqNos, cut, latest) && log == logged + OpRecord(op, seqNo)
      modifies this`ops, this`seqNos, this`latest, this`intact
      ensures Valid() && latest == Latest(old(latest), op) && ops == old(ops) + [op] && intact == (old(intact) && NulFree(op.key))
    {
      hide StoreOK, LogOK, OpRecord, Apply, Latest, NulFree;
      WriteOK(before, nextFile, intact, latest, op);
      LogOKMore(logged, ops, seqNos, cut, latest, op, seqNo);
      ops, seqNos, latest, intact := ops + [op], seqNos + [seqNo], Latest(latest, op), intact && NulFree(op.key);
    }

    /** The active table becomes the frozen one, and a new one takes its place. */
    method FreezeActive()
      requires Valid() && frozen == null
      modifies this`active, this`frozen, active`frozen
      ensures Valid() && fresh(active) && frozen == old(active) && !frozen.destroyed && frozen.frozen && !active.frozen
      ensures View() == Layers(map[], Some(old(active.entries)), disk)
    {
      hide StoreOK, LogOK;
      FreezeOK(View(), nextFile, intact, latest);
      active.Freeze();
      frozen := active;
      active := new Mem();
    }

    /** The frozen table is written to level 0 and destroyed, while the write path still points to it. A table that
        cannot be written is left as it is; an empty one is only destroyed. */
    method FlushMemtable(written: bool)
      requires Valid() && frozen != null && !frozen.destroyed
      modifies this`disk, this`nextFile, frozen`destroyed
      ensures Valid() && frozen == old(frozen) && nextFile == NumberAfter(old(nextFile), frozen.entries)
      ensures View() == Flushed(old(View()), old(nextFile), written)
      ensures frozen.destroyed == (written || frozen.entries == map[])
      ensures old(Ordered(disk)) ==> Ordered(disk)
      ensures disk.levels[1] == old(disk.levels[1])
    {
      hide StoreOK, LogOK, AddTable, Ordered;
      FlushOK(View(), nextFile, intact, latest, written);
      if frozen.entries == map[] {
        frozen.Destroy();
      } else if written {
        disk := AddTable(disk, nextFile, frozen.entries);
        frozen.Destroy();
      }
      nextFile := NumberAfter(nextFile, frozen.entries);
    }

    /** With few enough files on level 0 the frozen table is let go. If it was not written, what it said is lost. */
    method LetGo()
      requires Valid() && frozen != null && |disk.levels[0]| < L0_BACKPRESSURE
      modifies this`frozen, this`intact
      ensures Valid() && frozen == null
      ensures View() == old(View()).(frozen := None)
      ensures intact == (old(intact) && (old(frozen.destroyed) || forall k :: Redundant(old(View()), k)))
    {
      hide StoreOK, LogOK, Redundant;
      ghost var l := View();
      ghost var safe := frozen.destroyed || forall k :: Redundant(l, k);
      LetGoOK(l, nextFile, intact, latest, safe);
      frozen := null;
      intact := intact && safe;
    }

    /** The compaction worker, at any time: the files that were on level 0 when it began are merged into level 1.
        Answers stay right exactly when the greatest number among the sources of each key is that of its newest
        record; so they do while numbers follow recency, and numbers still do afterwards if no file was flushed
        under a smaller number meanwhile. The worker also empties the log, if that is the one it knows by name. */
    method Compact(job: Job, runs: map<Source, seq<Rec>>)
      requires Valid() && JobOK(disk, nextFile, job) && Runs(disk, runs)
      modifies this`disk, this`nextFile, this`log, this`cut, this`intact
      ensures Valid() && disk == Compacted(old(disk), job.captured, job.fid) && |disk.levels[0]| == |old(disk).levels[0]| - job.captured
      ensures intact == (old(intact) && AllKept(old(disk), job.captured))
      ensures old(Ordered(disk) && Room(disk)) ==> AllKept(old(disk), job.captured)
      ensures old(Ordered(disk)) && InTurn(old(disk), job) ==> Ordered(disk)
      ensures if job.empties then log == [] && cut == |ops| else log == old(log) && cut == old(cut)
    {
      hide StoreOK, LogOK, JobOK, Runs, AllKept, Ordered, InTurn, Compacted, DiskTree, DiskOK;
      ghost var l := View();
      StoreTree(l, nextFile, intact, latest);
      CompactOK(l, nextFile, intact, latest, job);
      if Ordered(disk) { InTurnKept(disk, nextFile, job); }
      JobUnused(disk, nextFile, job);
      intact := intact && AllKept(disk, job.captured);
      disk := CompactLevel(disk, job.captured, job.fid, runs);
      nextFile := NextAfter(nextFile, job);
      if job.empties {
        LogEmptied(log, ops, seqNos, cut, latest);
        log, cut := [], |ops|;
      }
    }

    /** A read: the active table, the frozen one, the files of level 0 from the newest, then levels 1 to 4. It
        looks into a destroyed table (and answers nothing here) exactly when the frozen one is destroyed and the
        active one does not have the key. Otherwise it gives the newest value, and all of it exactly when that
        has no zero byte. */
    method DbGet(k: Blob) returns (r: Option<Blob>)
      requires Valid()
      ensures r == None <==> frozen != null && frozen.destroyed && k !in active.entries
      ensures r.Some? ==> r.value == Answer(Find(View(), k))
      ensures r.Some? && !NulFree(k) ==> r.value == []
      ensures r.Some? && intact ==> r.value == if k in latest then CString(latest[k]) else []
      ensures r.Some? && intact && k in latest ==> (r.value == latest[k] <==> NulFree(latest[k]))
    {
      hide StoreOK, LogOK, Find, FindDisk, FindLevel, InFile, NulFree, CString, LayersClean, Holds, DiskOK, Answer;
      StoreLevels(View(), nextFile, intact, latest);
      if intact { HoldsAnswer(View(), latest, k); }
      FindSteps(View(), k);
      if !NulFree(k) { ZeroKeyUnfound(View(), k); }
      NoAnswer();
      if k in latest { CStringWhole(latest[k]); }
      if k in active.entries {
        return Some(Answer(Some(active.entries[k])));
      }
      if frozen != null {
        if frozen.destroyed {
          return None;
        }
        if k in frozen.entries {
          return Some(Answer(Some(frozen.entries[k])));
        }
      }
      var v := GetFromDisk(disk, k);
      r := Some(v);
    }
  }

  /** The layers after a flush, written or not. */
  function Flushed(l: Layers, fid: nat, written: bool): Layers
    requires |l.disk.levels| == LM_MAX_LEVELS && l.frozen.Some?
  {
    if written || l.frozen.value == map[] then FlushedOut(l, fid) else l
  }

  /** A flush takes a number for its file, unless it has nothing to write. */
  function NumberAfter(nextFile: nat, t: Table): nat {
    if t == map[] then nextFile else nextFile + 1
  }

  /** The files after a full table was flushed, or was not. */
  ghost function Upon(full: Table, d: Disk, nextFile: nat, written: bool): Disk
    requires |d.levels| == LM_MAX_LEVELS
  {
    Flushed(Layers(map[], Some(full), d), nextFile, written).disk
  }

  /** The layers after a full table's way to level 0. */
  ghost function Roomier(l: Layers, nextFile: nat, written: bool, worker: Option<Job>): Layers
    requires |l.disk.levels| == LM_MAX_LEVELS
  {
    var d := Upon(l.active, l.disk, nextFile, written);
    Layers(map[], None, if worker.Some? && worker.value.captured <= |d.levels[0]| then Compacted(d, worker.value.captured, worker.value.fid) else d)
  }

  ghost predicate Empties(worker: Option<Job>) {
    worker.Some? && worker.value.empties
  }

  /** The layers after a write. */
  ghost function Wrote(l: Layers, op: Op, walOk: bool): Layers {
    if walOk then l.(active := Apply(l.active, op)) else l
  }

  /** The log after a write. */
  ghost function Logged(log: Blob, op: Op, seqNo: int, walOk: bool): Blob {
    if walOk then log + OpRecord(op, seqNo) else log
  }

  /** What a writer meets between flush and letting go: nothing, or a compaction; one at least when level 0 is full. */
  ghost predicate Waits(d: Disk, nextFile: nat, worker: Option<Job>, runs: map<Source, seq<Rec>>)
    requires |d.levels| == LM_MAX_LEVELS
  {
    if worker.Some? then JobOK(d, nextFile, worker.value) && Runs(d, runs) && |d.levels[0]| - worker.value.captured < L0_BACKPRESSURE
    else |d.levels[0]| < L0_BACKPRESSURE
  }

  /** The worker keeps all answers. */
  ghost predicate Keeps(d: Disk, worker: Option<Job>)
    requires |d.levels| == LM_MAX_LEVELS
  {
    worker.Some? ==> worker.value.captured <= |d.levels[0]| && AllKept(d, worker.value.captured)
  }

  lemma StoreTree(l: Layers, nextFile: nat, intact: bool, latest: map<Blob, Blob>)
    requires StoreOK(l, nextFile, intact, latest)
    ensures DiskTree(l.disk) && DiskOK(l.disk, nextFile) && |l.disk.levels| == LM_MAX_LEVELS
  {
    hide DiskOK;
  }

  lemma JobUnused(d: Disk, nextFile: nat, job: Job)
    requires JobOK(d, nextFile, job)
    ensures |d.levels| == LM_MAX_LEVELS && job.captured <= |d.levels[0]| && Unused(d, job.fid)
  {
    hide Unused;
  }

  /** The search through the files; a tombstone ends it. */
  method GetFromDisk(d: Disk, k: Blob) returns (r: Blob)
    requires |d.levels| == LM_MAX_LEVELS
    ensures r == Answer(FindDisk(d, 0, k))
  {
    hide Answer;
    var lvl := 0;
    while lvl < SEARCHED_LEVELS
      invariant lvl <= SEARCHED_LEVELS && FindDisk(d, lvl, k) == FindDisk(d, 0, k)
    {
      var count := |d.levels[lvl]|;
      var i := 0;
      while i < count
        invariant i <= count && FindLevel(d, lvl, i, k) == FindLevel(d, lvl, 0, k)
      {
        var idx := i;
        if lvl == 0 { idx := count - 1 - i; }
        var fid := d.levels[lvl][idx];
        assert fid == FileAt(d, lvl, i);
        if (lvl, fid) in d.files {
          var table := d.files[(lvl, fid)];
          if k in table {
            return Answer(Some(table[k]));
          }
        }
        i := i + 1;
      }
      lvl := lvl + 1;
    }
    r := Answer(None);
  }

  /** What a replay keeps of the front part of a log: its whole records. */
  lemma KeptIs(file: Blob, ops: seq<Op>, seqNos: seq<int>)
    requires |seqNos| == |ops| && Loggable(ops) && file <= Log(ops, seqNos)
    ensures var k := WholeRecords(ops, seqNos, |file|); Kept(file) == Log(ops[..k], seqNos[..k])
  {
    hide ReadNext, Replayed, Log, Loggable, WholeRecords;
    var k := WholeRecords(ops, seqNos, |file|);
    assert file == Log(ops, seqNos)[..|file|];
    CrashRecovery(ops, seqNos, |file|);
    var n := Replayed(file).1;
    ReplayedInside(file);
    ReplayStops(file);
    LogFront(ops, seqNos, k);
    if ReadNext(file[n..]) != Torn {
      EofIs(file[n..]);
      assert file == file[..n];
    }
  }

  lemma LoggablePart(ops: seq<Op>, k: nat)
    requires Loggable(ops) && k <= |ops|
    ensures NulFreeKeys(ops[..k])
  {
    hide NulFree, Fits;
  }

  lemma {:induction false} LatestNulFree(ops: seq<Op>)
    requires NulFreeKeys(ops)
    ensures forall k :: k in LatestAll(map[], ops) ==> NulFree(k)
    decreases |ops|
  {
    hide NulFree;
    if ops != [] { LatestNulFree(ops[..|ops| - 1]); }
  }

  lemma NoAnswer()
    ensures Answer(None) == []
  {
  }

  lemma HoldsAnswer(l: Layers, m: map<Blob, Blob>, k: Blob)
    requires Holds(l, m)
    ensures Answer(Find(l, k)) == if k in m then CString(m[k]) else []
  {
    hide Find, CString;
    assert HoldsAt(l, m, k);
  }

  lemma FindSteps(l: Layers, k: Blob)
    requires |l.disk.levels| == LM_MAX_LEVELS
    ensures Find(l, k) == if k in l.active then Some(l.active[k])
                          else if l.frozen.Some? && k in l.frozen.value then Some(l.frozen.value[k])
                          else FindDisk(l.disk, 0, k)
  {
    hide FindDisk;
  }

  lemma EmptyIs()
    ensures CString([]) == [] && NulFree([])
  {
  }

  lemma {:induction false} LogMore(ops: seq<Op>, seqNos: seq<int>, op: Op, seqNo: int)
    requires |seqNos| == |ops|
    ensures Log(ops + [op], seqNos + [seqNo]) == Log(ops, seqNos) + OpRecord(op, seqNo)
    decreases |ops|
  {
    hide OpRecord;
    if ops == [] {
      assert ([op])[1..] == [] && [] + [op] == [op] && [] + [seqNo] == [seqNo];
      assert Log([op], [seqNo]) == OpRecord(op, seqNo) + Log([op][1..], [seqNo][1..]);
    } else {
      assert (ops + [op])[1..] == ops[1..] + [op] && (seqNos + [seqNo])[1..] == seqNos[1..] + [seqNo];
      LogMore(ops[1..], seqNos[1..], op, seqNo);
    }
  }
}
