/** The bottom row of the skip list under a memtable: nodes in the order of what their keys read as, since the
    list compares stored keys as strings that end at their first zero byte. Searching such a row is looking
    into the table of first matches, also when keys have zero bytes. */
module SkipList {
  import opened Options
  import opened Octets
  import opened Memtable

  datatype SlNode = SlNode(key: Blob, entry: Entry)

  /** The key as comparisons see it. */
  function Reads(n: SlNode): (c: Blob)
    ensures NulFree(c)
  {
    CStringNulFree(n.key);
    CString(n.key)
  }

  /** The order of strings. */
  predicate Less(a: Blob, b: Blob) {
    b != [] && (a == [] || a[0] < b[0] || (a[0] == b[0] && Less(a[1..], b[1..])))
  }

  lemma {:induction false} LessTotal(a: Blob, b: Blob)
    ensures !(Less(a, b) && Less(b, a)) && (a != b ==> Less(a, b) || Less(b, a)) && !Less(a, a)
  {
    if a != [] { LessTotal(a[1..], a[1..]); }
    if a != [] && b != [] {
      LessTotal(a[1..], b[1..]);
      if a[0] == b[0] && a[1..] == b[1..] { assert a == [a[0]] + a[1..] == b; }
    }
  }

  lemma {:induction false} LessTransitive(a: Blob, b: Blob, c: Blob)
    requires Less(a, b) && Less(b, c)
    ensures Less(a, c)
  {
    if a != [] && a[0] == b[0] == c[0] { LessTransitive(a[1..], b[1..], c[1..]); }
  }

  /** A key with a zero byte stands right behind what it reads as. */
  lemma {:induction false} ZeroKeyOrder(x: Blob, k: Blob)
    requires NulFree(x) && CString(k) != k
    ensures Less(x, k) <==> x == CString(k) || Less(x, CString(k))
  {
    if x != [] && k[0] != 0 && x[0] == k[0] {
      TailNulFree(x);
      assert k == [k[0]] + k[1..];
      ZeroKeyOrder(x[1..], k[1..]);
      assert CString(k)[1..] == CString(k[1..]);
      if x[1..] == CString(k[1..]) { assert x == [x[0]] + x[1..] == CString(k); }
    }
  }

  lemma TailNulFree(x: Blob)
    requires x != [] && NulFree(x)
    ensures NulFree(x[1..]) && x[0] != 0
  {
    forall i | 0 <= i < |x[1..]| ensures x[1..][i] != 0 { assert x[1..][i] == x[i + 1]; }
  }

  // ---------- Rows ----------

  ghost predicate Sorted(row: seq<SlNode>) {
    forall i, j :: 0 <= i < j < |row| ==> !Less(Reads(row[j]), Reads(row[i]))
  }

  /** Where the walk along the row stops: the first node that does not read as less than the key. */
  function Place(row: seq<SlNode>, k: Blob): (i: nat)
    ensures i <= |row| && (forall j :: 0 <= j < i ==> Less(Reads(row[j]), k)) && (i < |row| ==> !Less(Reads(row[i]), k))
  {
    if row == [] || !Less(Reads(row[0]), k) then 0 else Place(row[1..], k) + 1
  }

  /** The node that a search stops at, if it reads as the key. */
  function Search(row: seq<SlNode>, k: Blob): Option<Entry> {
    var i := Place(row, k);
    if i < |row| && Reads(row[i]) == k then Some(row[i].entry) else None
  }

  /** The node that reads as the key gets the value, or a new node stands where the walk stopped. */
  function Insert(row: seq<SlNode>, k: Blob, e: Entry): seq<SlNode> {
    var i := Place(row, k);
    if i < |row| && Reads(row[i]) == k then row[i := SlNode(row[i].key, e)] else row[..i] + [SlNode(k, e)] + row[i..]
  }

  /** An empty value is inserted, then the node that reads as the key is marked, if there is one. */
  function Delete(row: seq<SlNode>, k: Blob): seq<SlNode> {
    var r := Insert(row, k, Live([]));
    var i := Place(r, k);
    if i < |r| && Reads(r[i]) == k then r[i := SlNode(r[i].key, Tombstone)] else r
  }

  // ---------- The table of a row ----------

  /** The entry of the first node that reads as `c`. */
  ghost function First(row: seq<SlNode>, c: Blob): Option<Entry> {
    if row == [] then None else if Reads(row[0]) == c then Some(row[0].entry) else First(row[1..], c)
  }

  ghost predicate IsTable(row: seq<SlNode>, t: Table) {
    forall c :: First(row, c) == if c in t then Some(t[c]) else None
  }

  lemma {:induction false} FirstAt(row: seq<SlNode>, c: Blob, i: nat)
    requires i <= |row| && forall j :: 0 <= j < i ==> Reads(row[j]) != c
    ensures First(row, c) == First(row[i..], c)
    ensures i < |row| && Reads(row[i]) == c ==> First(row, c) == Some(row[i].entry)
  {
    if i > 0 {
      assert forall j :: 0 <= j < i - 1 ==> row[1..][j] == row[j + 1];
      FirstAt(row[1..], c, i - 1);
      assert row[1..][i - 1..] == row[i..];
    } else {
      assert row[0..] == row;
    }
  }

  lemma {:induction false} FirstConcat(a: seq<SlNode>, b: seq<SlNode>, c: Blob)
    ensures First(a + b, c) == if First(a, c).Some? then First(a, c) else First(b, c)
  {
    if a == [] {
      assert a + b == b;
    } else {
      assert (a + b)[1..] == a[1..] + b;
      FirstConcat(a[1..], b, c);
    }
  }

  lemma {:induction false} FirstNone(row: seq<SlNode>, c: Blob)
    requires forall j :: 0 <= j < |row| ==> Reads(row[j]) != c
    ensures First(row, c) == None
  {
    if row != [] {
      assert forall j :: 0 <= j < |row| - 1 ==> row[1..][j] == row[j + 1];
      FirstNone(row[1..], c);
    }
  }

  /** A search in a sorted row finds the first node that reads as the key. */
  lemma SearchFinds(row: seq<SlNode>, k: Blob)
    requires Sorted(row)
    ensures Search(row, k) == First(row, k)
  {
    hide First, Less, Reads;
    var i := Place(row, k);
    forall j | 0 <= j < i ensures Reads(row[j]) != k { LessTotal(Reads(row[j]), k); }
    FirstAt(row, k, i);
    if i < |row| && Reads(row[i]) != k {
      forall j | 0 <= j < |row[i..]| ensures Reads(row[i..][j]) != k { Beyond(row, k, i, i + j); }
      FirstNone(row[i..], k);
    }
    if i == |row| { FirstNone(row[i..], k); }
  }

  /** Nodes behind one that reads as more than the key read as more, too. */
  lemma Beyond(row: seq<SlNode>, k: Blob, i: nat, j: nat)
    requires Sorted(row) && i <= j < |row| && !Less(Reads(row[i]), k) && Reads(row[i]) != k
    ensures Less(k, Reads(row[j])) && Reads(row[j]) != k
  {
    hide Less, Reads;
    var a, b := Reads(row[i]), Reads(row[j]);
    LessTotal(a, k);
    if j > i { LessTotal(a, b); }
    if a != b { LessTransitive(k, a, b); }
    LessTotal(k, b);
  }

  /** Where a new node is put, the nodes before read as no more than it and the nodes behind as more. */
  lemma PlaceOrder(row: seq<SlNode>, k: Blob)
    requires Sorted(row) && Search(row, k) == None
    ensures var c, i := CString(k), Place(row, k);
            && (forall j :: 0 <= j < i ==> Reads(row[j]) == c || Less(Reads(row[j]), c))
            && (forall j :: i <= j < |row| ==> Less(c, Reads(row[j])))
  {
    hide Less, Reads, CString;
    var c, i := CString(k), Place(row, k);
    forall j | 0 <= j < |row| ensures if j < i then Reads(row[j]) == c || Less(Reads(row[j]), c) else Less(c, Reads(row[j])) {
      var x := Reads(row[j]);
      if j >= i { Beyond(row, k, i, j); LessTotal(k, x); }
      if c != k { ZeroKeyOrder(x, k); }
      LessTotal(x, c);
    }
  }

  /** An insert keeps the row sorted and does to its table what a put does. */
  lemma InsertIsPut(row: seq<SlNode>, k: Blob, v: Blob, t: Table)
    requires Sorted(row) && IsTable(row, t)
    ensures Sorted(Insert(row, k, Live(v))) && IsTable(Insert(row, k, Live(v)), Apply(t, Put(k, v)))
  {
    hide Less, Reads, CString, Sorted, First;
    SearchFinds(row, k);
    SearchReads(row, k);
    if Search(row, k).Some? {
      OverwriteRow(row, Place(row, k), Live(v), t);
    } else {
      PlaceOrder(row, k);
      InsertNew(row, k, Live(v), t);
    }
  }

  lemma SearchReads(row: seq<SlNode>, k: Blob)
    ensures Search(row, k).Some? ==> CString(k) == k
  {
    if Search(row, k).Some? { CStringWhole(k); }
  }

  /** Setting the first node that reads as `k`. */
  lemma OverwriteRow(row: seq<SlNode>, i: nat, e: Entry, t: Table)
    requires Sorted(row) && IsTable(row, t) && i < |row| && forall j :: 0 <= j < i ==> Reads(row[j]) != Reads(row[i])
    ensures Sorted(row[i := SlNode(row[i].key, e)]) && IsTable(row[i := SlNode(row[i].key, e)], t[Reads(row[i]) := e])
  {
    hide Less, First;
    var r, k := row[i := SlNode(row[i].key, e)], Reads(row[i]);
    assert forall j :: 0 <= j < |row| ==> Reads(r[j]) == Reads(row[j]);
    forall c ensures First(r, c) == if c == k then Some(e) else First(row, c) {
      if c == k { FirstAt(r, k, i); } else { SameFirst(row, r, c); }
    }
  }

  lemma {:induction false} SameFirst(a: seq<SlNode>, b: seq<SlNode>, c: Blob)
    requires |a| == |b| && forall j :: 0 <= j < |a| ==> Reads(a[j]) == Reads(b[j]) && (Reads(a[j]) == c ==> a[j] == b[j])
    ensures First(a, c) == First(b, c)
  {
    hide Reads;
    if a != [] {
      assert forall j :: 0 <= j < |a| - 1 ==> a[1..][j] == a[j + 1] && b[1..][j] == b[j + 1];
      SameFirst(a[1..], b[1..], c);
    }
  }

  lemma InsertNew(row: seq<SlNode>, k: Blob, e: Entry, t: Table)
    requires Sorted(row) && IsTable(row, t) && Search(row, k) == First(row, k) == None
    requires var c, i := CString(k), Place(row, k);
             && (forall j :: 0 <= j < i ==> Reads(row[j]) == c || Less(Reads(row[j]), c))
             && (forall j :: i <= j < |row| ==> Less(c, Reads(row[j])))
    ensures var c := CString(k); Sorted(Insert(row, k, e)) && IsTable(Insert(row, k, e), if c in t then t else t[c := e])
  {
    hide Less, CString, First;
    var c, i := CString(k), Place(row, k);
    var n := SlNode(k, e);
    var r := row[..i] + [n] + row[i..];
    assert Reads(n) == c;
    SortedAround(row, i, n);
    forall x ensures First(r, x) == if x == c then (if c in t then Some(t[c]) else Some(e)) else First(row, x) {
      FirstAround(row, i, n, x);
      if x == c {
        forall j | 0 <= j < |row[i..]| ensures Reads(row[i..][j]) != c { LessTotal(c, Reads(row[i + j])); }
        FirstNone(row[i..], c);
      }
    }
  }

  lemma SortedAround(row: seq<SlNode>, i: nat, n: SlNode)
    requires Sorted(row) && i <= |row|
    requires forall j :: 0 <= j < i ==> Reads(row[j]) == Reads(n) || Less(Reads(row[j]), Reads(n))
    requires forall j :: i <= j < |row| ==> Less(Reads(n), Reads(row[j]))
    ensures Sorted(row[..i] + [n] + row[i..])
  {
    hide Less, Reads;
    var r := row[..i] + [n] + row[i..];
    forall a, b | 0 <= a < b < |r| ensures !Less(Reads(r[b]), Reads(r[a])) {
      assert r[a] == if a < i then row[a] else if a == i then n else row[a - 1];
      assert r[b] == if b < i then row[b] else if b == i then n else row[b - 1];
      LessTotal(Reads(r[a]), Reads(r[b]));
      LessTotal(Reads(n), Reads(n));
    }
  }

  lemma FirstAround(row: seq<SlNode>, i: nat, n: SlNode, x: Blob)
    requires i <= |row|
    ensures First(row, x) == if First(row[..i], x).Some? then First(row[..i], x) else First(row[i..], x)
    ensures First(row[..i] + [n] + row[i..], x) ==
              if First(row[..i], x).Some? then First(row[..i], x) else if Reads(n) == x then Some(n.entry) else First(row[i..], x)
  {
    hide Reads;
    assert row == row[..i] + row[i..];
    FirstConcat(row[..i], row[i..], x);
    assert row[..i] + [n] + row[i..] == row[..i] + ([n] + row[i..]);
    FirstConcat(row[..i], [n] + row[i..], x);
    assert ([n] + row[i..])[1..] == row[i..];
  }

  /** A delete keeps the row sorted and does to its table what the table's delete does. */
  lemma DeleteIsDelete(row: seq<SlNode>, k: Blob, t: Table)
    requires Sorted(row) && IsTable(row, t)
    ensures Sorted(Delete(row, k)) && IsTable(Delete(row, k), Apply(t, Op.Delete(k)))
  {
    hide Less, Reads, CString, Sorted, First, Insert;
    InsertIsPut(row, k, [], t);
    var r := Insert(row, k, Live([]));
    SearchFinds(r, k);
    SearchReads(r, k);
    FoundAfter(r, k, Apply(t, Put(k, [])));
    if Search(r, k).Some? {
      OverwriteRow(r, Place(r, k), Tombstone, Apply(t, Put(k, [])));
    }
  }

  lemma FoundAfter(r: seq<SlNode>, k: Blob, t: Table)
    requires Search(r, k) == First(r, k) && IsTable(r, t)
    ensures Search(r, k).Some? <==> k in t
    ensures forall j :: 0 <= j < Place(r, k) ==> Reads(r[j]) != k
  {
    hide First, Less, Reads;
    forall j | 0 <= j < Place(r, k) ensures Reads(r[j]) != k { LessTotal(k, k); }
  }

  /** Any history of puts and deletes: searching the row that it leaves is looking into the table. */
  lemma {:induction false} RowIsTable(ops: seq<Op>)
    ensures Sorted(RowOf(ops)) && IsTable(RowOf(ops), ApplyAll(map[], ops))
    ensures forall k :: Search(RowOf(ops), k) == if k in ApplyAll(map[], ops) then Some(ApplyAll(map[], ops)[k]) else None
    decreases |ops|
  {
    hide First, Less, Reads, Search, Insert, Delete, Apply;
    if ops != [] {
      var n := |ops| - 1;
      RowIsTable(ops[..n]);
      var row, t := RowOf(ops[..n]), ApplyAll(map[], ops[..n]);
      match ops[n]
      case Put(k, v) => InsertIsPut(row, k, v, t);
      case Delete(k) => DeleteIsDelete(row, k, t);
    } else {
      NoRow();
    }
    forall k ensures Search(RowOf(ops), k) == First(RowOf(ops), k) { SearchFinds(RowOf(ops), k); }
  }

  lemma NoRow()
    ensures forall c :: First([], c) == None
  {
  }

  /** The row after a history that starts empty. */
  function RowOf(ops: seq<Op>): seq<SlNode> {
    if ops == [] then []
    else
      var row := RowOf(ops[..|ops| - 1]);
      match ops[|ops| - 1]
      case Put(k, v) => Insert(row, k, Live(v))
      case Delete(k) => Delete(row, k)
  }
}
