/** The table files on disk: which are registered on which level, and in which order a read looks at them. */
module Levels {
  import opened Options
  import opened Memtable

  const LM_MAX_LEVELS := 7
  const LM_MAX_SSTABLES_PER_LEVEL := 1024

  /** The levels that a read searches. */
  const SEARCHED_LEVELS := 5

  /** The registered files of each level, oldest first, and the files on disk by level and number. */
  datatype Disk = Disk(levels: seq<seq<nat>>, files: map<(nat, nat), Table>)

  ghost predicate DiskOK(d: Disk, nextFile: nat) {
    && |d.levels| == LM_MAX_LEVELS && (forall f :: f in d.files ==> Clean(d.files[f]))
    && (forall l: nat, f: nat :: (l, f) in d.files ==> f < nextFile)
    && forall l, i :: 0 <= l < LM_MAX_LEVELS && 0 <= i < |d.levels[l]| ==> d.levels[l][i] < nextFile
  }

  // ---------- Reading ----------

  /** The file to look at i-th on a level: the newest first on level 0, in order on the others. */
  function FileAt(d: Disk, lvl: nat, i: nat): nat
    requires lvl < |d.levels| && i < |d.levels[lvl]|
  {
    d.levels[lvl][if lvl == 0 then |d.levels[lvl]| - 1 - i else i]
  }

  /** What one file says about a key; a file that cannot be opened says nothing. */
  function InFile(d: Disk, lvl: nat, fid: nat, k: Blob): Option<Entry> {
    if (lvl, fid) in d.files && k in d.files[(lvl, fid)] then Some(d.files[(lvl, fid)][k]) else None
  }

  /** The first entry from the i-th file of a level on. */
  function FindLevel(d: Disk, lvl: nat, i: nat, k: Blob): Option<Entry>
    requires lvl < |d.levels| && i <= |d.levels[lvl]|
    decreases |d.levels[lvl]| - i
  {
    if i == |d.levels[lvl]| then None
    else if InFile(d, lvl, FileAt(d, lvl, i), k).Some? then InFile(d, lvl, FileAt(d, lvl, i), k)
    else FindLevel(d, lvl, i + 1, k)
  }

  /** The first entry from level `lvl` on. */
  function FindDisk(d: Disk, lvl: nat, k: Blob): Option<Entry>
    requires |d.levels| == LM_MAX_LEVELS && lvl <= SEARCHED_LEVELS
    decreases SEARCHED_LEVELS - lvl
  {
    if lvl == SEARCHED_LEVELS then None
    else if FindLevel(d, lvl, 0, k).Some? then FindLevel(d, lvl, 0, k)
    else FindDisk(d, lvl + 1, k)
  }

  /** The value that an entry stands for: none for a tombstone or no entry. */
  function Present(e: Option<Entry>): Option<Blob> {
    if e.Some? && e.value.Live? then Some(e.value.val) else None
  }

  /** A read looks at no level beyond the fifth, and takes the first entry that a level has for the key. */
  lemma {:induction false} FoundFirst(d: Disk, lvl: nat, k: Blob)
    requires |d.levels| == LM_MAX_LEVELS && lvl <= 5
    ensures FindDisk(d, lvl, k) == None <==> forall l :: lvl <= l < 5 ==> FindLevel(d, l, 0, k) == None
    ensures FindDisk(d, lvl, k).Some? ==>
              exists l :: lvl <= l < 5 && FirstLevel(d, lvl, l, k) && FindDisk(d, lvl, k) == FindLevel(d, l, 0, k)
    decreases 5 - lvl
  {
    if lvl < 5 {
      FoundFirst(d, lvl + 1, k);
      assert (forall l :: lvl <= l < 5 ==> FindLevel(d, l, 0, k) == None)
        <==> FindLevel(d, lvl, 0, k) == None && forall l :: lvl + 1 <= l < 5 ==> FindLevel(d, l, 0, k) == None;
      if FindLevel(d, lvl, 0, k).Some? {
        assert FirstLevel(d, lvl, lvl, k);
      } else if FindDisk(d, lvl, k).Some? {
        var l :| lvl < l < 5 && FirstLevel(d, lvl + 1, l, k) && FindDisk(d, lvl, k) == FindLevel(d, l, 0, k);
        assert FirstLevel(d, lvl, l, k);
      }
    }
  }

  ghost predicate FirstLevel(d: Disk, lvl: nat, l: nat, k: Blob)
    requires l < |d.levels|
  {
    forall j :: lvl <= j < l ==> FindLevel(d, j, 0, k) == None
  }

  // ---------- A new file ----------

  /** A table written to level 0 under a new number, and registered while the level has room. */
  function AddTable(d: Disk, fid: nat, t: Table): Disk
    requires |d.levels| == LM_MAX_LEVELS
  {
    var files := d.files[(0, fid) := t];
    if |d.levels[0]| < LM_MAX_SSTABLES_PER_LEVEL then Disk(d.levels[0 := d.levels[0] + [fid]], files) else Disk(d.levels, files)
  }

  lemma {:induction false} OtherFiles(d: Disk, e: Disk, lvl: nat, i: nat, j: nat, k: Blob)
    requires lvl < |d.levels| == |e.levels| && i <= |d.levels[lvl]| && j <= |e.levels[lvl]|
    requires |d.levels[lvl]| - i == |e.levels[lvl]| - j
    requires forall x :: 0 <= x < |d.levels[lvl]| - i ==> SameAfter(d, e, lvl, i, j, x)
    ensures FindLevel(d, lvl, i, k) == FindLevel(e, lvl, j, k)
    decreases |d.levels[lvl]| - i
  {
    if i < |d.levels[lvl]| {
      assert SameAfter(d, e, lvl, i, j, 0);
      var i2, j2 := i + 1, j + 1;
      forall x | 0 <= x < |d.levels[lvl]| - i2 ensures SameAfter(d, e, lvl, i2, j2, x) {
        assert SameAfter(d, e, lvl, i, j, x + 1);
      }
      OtherFiles(d, e, lvl, i2, j2, k);
    }
  }

  /** The files `x` places on from the i-th of `d` and the j-th of `e` say the same. */
  ghost predicate SameAfter(d: Disk, e: Disk, lvl: nat, i: nat, j: nat, x: nat) {
    SameFile(d, e, lvl, i + x, j + x)
  }

  ghost predicate SameFile(d: Disk, e: Disk, lvl: nat, i: nat, j: nat) {
    && lvl < |d.levels| && lvl < |e.levels| && i < |d.levels[lvl]| && j < |e.levels[lvl]|
    && forall k :: InFile(d, lvl, FileAt(d, lvl, i), k) == InFile(e, lvl, FileAt(e, lvl, j), k)
  }

  /** With room on level 0 the new table is the first one that reads look at, and the others are as before. */
  lemma AddTableFinds(d: Disk, fid: nat, t: Table, k: Blob)
    requires DiskOK(d, fid) && |d.levels[0]| < 1024
    ensures FindDisk(AddTable(d, fid, t), 0, k) == if k in t then Some(t[k]) else FindDisk(d, 0, k)
    ensures Clean(t) ==> DiskOK(AddTable(d, fid, t), fid + 1)
  {
    hide FindDisk, FindLevel, Clean;
    var e := AddTable(d, fid, t);
    NewFirst(d, fid, t, k);
    LevelsBelow(d, e, 1, k);
    TopLevel(d, k);
    TopLevel(e, k);
  }

  lemma TopLevel(d: Disk, k: Blob)
    requires |d.levels| == LM_MAX_LEVELS
    ensures FindDisk(d, 0, k) == if FindLevel(d, 0, 0, k).Some? then FindLevel(d, 0, 0, k) else FindDisk(d, 1, k)
  {
    hide FindLevel;
  }

  lemma NewFirst(d: Disk, fid: nat, t: Table, k: Blob)
    requires DiskOK(d, fid) && |d.levels[0]| < LM_MAX_SSTABLES_PER_LEVEL
    ensures FindLevel(AddTable(d, fid, t), 0, 0, k) == if k in t then Some(t[k]) else FindLevel(d, 0, 0, k)
  {
    var e := AddTable(d, fid, t);
    assert FileAt(e, 0, 0) == fid;
    forall x | 0 <= x < |d.levels[0]| ensures SameAfter(e, d, 0, 1, 0, x) {
      assert FileAt(e, 0, 1 + x) == FileAt(d, 0, x) != fid;
    }
    OtherFiles(e, d, 0, 1, 0, k);
  }

  lemma {:induction false} LevelsBelow(d: Disk, e: Disk, lvl: nat, k: Blob)
    requires |d.levels| == |e.levels| == LM_MAX_LEVELS && 1 <= lvl <= SEARCHED_LEVELS
    requires forall l :: lvl <= l < LM_MAX_LEVELS ==> e.levels[l] == d.levels[l]
    requires forall l: nat, f: nat :: lvl <= l ==> ((l, f) in e.files <==> (l, f) in d.files) && ((l, f) in d.files ==> e.files[(l, f)] == d.files[(l, f)])
    ensures FindDisk(e, lvl, k) == FindDisk(d, lvl, k)
    decreases SEARCHED_LEVELS - lvl
  {
    if lvl < SEARCHED_LEVELS {
      forall x | 0 <= x < |d.levels[lvl]| ensures SameAfter(e, d, lvl, 0, 0, x) {}
      OtherFiles(e, d, lvl, 0, 0, k);
      LevelsBelow(d, e, lvl + 1, k);
    }
  }

  /** A file that is not registered is not looked at. */
  lemma UnregisteredSame(d: Disk, fid: nat, t: Table, k: Blob)
    requires DiskOK(d, fid) && |d.levels[0]| >= 1024
    ensures FindDisk(AddTable(d, fid, t), 0, k) == FindDisk(d, 0, k)
  {
    hide FindDisk, FindLevel;
    var e := AddTable(d, fid, t);
    forall x | 0 <= x < |d.levels[0]| ensures SameAfter(e, d, 0, 0, 0, x) {}
    OtherFiles(e, d, 0, 0, 0, k);
    LevelsBelow(d, e, 1, k);
    TopLevel(d, k);
    TopLevel(e, k);
  }

  // ---------- No files ----------

  function EmptyDisk(): Disk {
    Disk(seq(LM_MAX_LEVELS, _ => []), map[])
  }

  lemma EmptyFinds()
    ensures |EmptyDisk().levels| == LM_MAX_LEVELS && forall k :: FindDisk(EmptyDisk(), 0, k) == None
  {
    forall k ensures FindDisk(EmptyDisk(), 0, k) == None { EmptyFrom(0, k); }
  }

  lemma {:induction false} EmptyFrom(lvl: nat, k: Blob)
    requires lvl <= SEARCHED_LEVELS
    ensures FindDisk(EmptyDisk(), lvl, k) == None
    decreases SEARCHED_LEVELS - lvl
  {
    if lvl < SEARCHED_LEVELS { EmptyFrom(lvl + 1, k); }
  }

  lemma EmptyOK()
    ensures DiskOK(EmptyDisk(), 1) && Clean(map[]) && |EmptyDisk().levels[0]| == 0 && EmptyDisk().files == map[]
  {
  }

  lemma DiskLater(d: Disk, nextFile: nat)
    requires DiskOK(d, nextFile)
    ensures DiskOK(d, nextFile + 1)
  {
    hide Clean;
  }

  lemma AddTableShape(d: Disk, fid: nat, t: Table)
    requires |d.levels| == LM_MAX_LEVELS
    ensures |AddTable(d, fid, t).levels| == LM_MAX_LEVELS && |AddTable(d, fid, t).levels[0]| <= |d.levels[0]| + 1
    ensures AddTable(d, fid, t).levels[1] == d.levels[1]
    ensures forall f :: f in AddTable(d, fid, t).files ==> f in d.files || f == (0, fid)
    ensures forall f :: f in AddTable(d, fid, t).files ==> AddTable(d, fid, t).files[f] == if f == (0, fid) then t else d.files[f]
  {
  }

  lemma DiskShape(d: Disk, nextFile: nat)
    requires DiskOK(d, nextFile)
    ensures |d.levels| == LM_MAX_LEVELS
  {
  }
}
