/** The sorted in-memory table, as a map from keys to values and tombstones. Keys are compared as strings, and
    a stored string is read up to its first zero byte. */
module Memtable {
  import opened Octets

  type Blob = seq<Octet>

  // ---------- Strings ----------

  /** Reading a string stops at its first zero byte. */
  function CString(b: Blob): (r: Blob)
    ensures r <= b
  {
    if b == [] || b[0] == 0 then [] else [b[0]] + CString(b[1..])
  }

  ghost predicate NulFree(b: Blob) {
    forall i :: 0 <= i < |b| ==> b[i] != 0
  }

  lemma {:induction false} CStringWhole(b: Blob)
    ensures CString(b) == b <==> NulFree(b)
  {
    if b != [] {
      CStringWhole(b[1..]);
      assert b == [b[0]] + b[1..];
      if b[0] != 0 && NulFree(b[1..]) {
        forall i | 0 <= i < |b| ensures b[i] != 0 { if i > 0 { assert b[i] == b[1..][i - 1]; } }
      }
      if NulFree(b) {
        forall i | 0 <= i < |b[1..]| ensures b[1..][i] != 0 { assert b[1..][i] == b[i + 1]; }
      }
    }
  }

  lemma {:induction false} CStringNulFree(b: Blob)
    ensures NulFree(CString(b))
  {
    if b != [] && b[0] != 0 {
      CStringNulFree(b[1..]);
      var c := CString(b);
      forall i | 0 <= i < |c| ensures c[i] != 0 { if i > 0 { assert c[i] == CString(b[1..])[i - 1]; } }
    }
  }

  // ---------- Tables ----------

  datatype Entry = Live(val: Blob) | Tombstone

  /** What a search finds under each key. */
  type Table = map<Blob, Entry>

  /** A search never finds a key with a zero byte: no stored key reads like it. */
  ghost predicate Clean(t: Table) {
    forall k :: k in t ==> NulFree(k)
  }

  /** What a write to a frozen memtable returns. */
  const ERR_PAGE_FULL := 10

  datatype Op = Put(key: Blob, val: Blob) | Delete(key: Blob)

  /** A write. One to a key with a zero byte meets no node to overwrite or to mark: it adds a live node behind
      those that read the same, which a search finds, under what is left of the key, if there was none before; see SkipList.RowIsTable. */
  function Apply(t: Table, op: Op): Table {
    var c := CString(op.key);
    if c == op.key then t[c := if op.Put? then Live(op.val) else Tombstone]
    else if c in t then t
    else t[c := Live(if op.Put? then op.val else [])]
  }

  lemma ApplyClean(t: Table, op: Op)
    requires Clean(t)
    ensures Clean(Apply(t, op))
  {
    hide CString, NulFree;
    CStringNulFree(op.key);
  }

  function ApplyAll(t: Table, ops: seq<Op>): Table {
    if ops == [] then t else Apply(ApplyAll(t, ops[..|ops| - 1]), ops[|ops| - 1])
  }

  lemma {:induction false} ApplyMore(t: Table, a: seq<Op>, b: seq<Op>)
    ensures ApplyAll(t, a + b) == ApplyAll(ApplyAll(t, a), b)
    decreases |b|
  {
    hide Apply;
    if b == [] {
      assert a + b == a;
    } else {
      assert (a + b)[..|a + b| - 1] == a + b[..|b| - 1];
      ApplyMore(t, a, b[..|b| - 1]);
    }
  }

  lemma {:induction false} ApplyAllClean(t: Table, ops: seq<Op>)
    requires Clean(t)
    ensures Clean(ApplyAll(t, ops))
    decreases |ops|
  {
    hide Apply, Clean;
    if ops != [] {
      ApplyAllClean(t, ops[..|ops| - 1]);
      ApplyClean(ApplyAll(t, ops[..|ops| - 1]), ops[|ops| - 1]);
    }
  }

  // ---------- The object ----------

  class Mem {
    var entries: Table
    var frozen: bool

    /** Its memory has been given back; whoever still points to it must not look. */
    var destroyed: bool

    constructor ()
      ensures entries == map[] && !frozen && !destroyed
    {
      entries, frozen, destroyed := map[], false, false;
    }

    /** Overwrites the node that reads like the key, or adds one. */
    method SlInsert(k: Blob, v: Blob)
      modifies this`entries
      ensures entries == Apply(old(entries), Put(k, v))
    {
      var c := CString(k);
      if c == k || c !in entries {
        entries := entries[c := Live(v)];
      }
    }

    method MtPut(k: Blob, v: Blob) returns (code: int)
      requires !destroyed
      modifies this`entries
      ensures if frozen then code == ERR_PAGE_FULL && entries == old(entries)
              else code == 0 && entries == Apply(old(entries), Put(k, v))
    {
      if frozen {
        return ERR_PAGE_FULL;
      }
      SlInsert(k, v);
      code := 0;
    }

    /** Inserts an empty value and then marks the node that reads like the key, if there is one. */
    method MtDelete(k: Blob) returns (code: int)
      requires !destroyed
      modifies this`entries
      ensures if frozen then code == ERR_PAGE_FULL && entries == old(entries)
              else code == 0 && entries == Apply(old(entries), Delete(k))
    {
      if frozen {
        return ERR_PAGE_FULL;
      }
      SlInsert(k, []);
      if CString(k) == k {
        entries := entries[k := Tombstone];
      }
      code := 0;
    }

    /** From now on writes are refused. */
    method Freeze()
      requires !destroyed
      modifies this`frozen
      ensures frozen
    {
      frozen := true;
    }

    method Destroy()
      requires !destroyed
      modifies this`destroyed
      ensures destroyed
    {
      destroyed := true;
    }
  }
}
