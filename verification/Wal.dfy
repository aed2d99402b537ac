/** The write-ahead log: checksummed records of puts and deletes, appended one after the other, and the
    replay that rebuilds the memtable and stops at the first torn or corrupt record. */
module Wal {
  import opened Options
  import opened Octets
  import opened Crc32
  import opened Memtable

  const WAL_RECORD_HEADER := 16
  const WAL_RECORD_PUT := 1
  const WAL_RECORD_DELETE := 2

  const INT32_LIMIT := 0x8000_0000

  // ---------- Numbers in four bytes ----------

  /** The low 32 bits of a number, the low byte first. */
  function Int32(n: int): (r: Blob)
    ensures |r| == 4
  {
    [ToOctet(n % 256), ToOctet(n / 256 % 256), ToOctet(n / 0x1_0000 % 256), ToOctet(n / 0x100_0000 % 256)]
  }

  /** Four bytes as a signed number. */
  function ReadInt32(b: Blob, at: nat): (r: int)
    requires at + 4 <= |b|
    ensures -INT32_LIMIT <= r < INT32_LIMIT
  {
    var u := ToInt(b[at]) + 256 * ToInt(b[at + 1]) + 0x1_0000 * ToInt(b[at + 2]) + 0x100_0000 * ToInt(b[at + 3]);
    if u >= INT32_LIMIT then u - 2 * INT32_LIMIT else u
  }

  lemma Digits(n: int)
    requires 0 <= n < 2 * INT32_LIMIT
    ensures n == n % 256 + 256 * (n / 256 % 256) + 0x1_0000 * (n / 0x1_0000 % 256) + 0x100_0000 * (n / 0x100_0000 % 256)
  {
    var a, b, c := n / 256, n / 0x1_0000, n / 0x100_0000;
    assert n == 256 * a + n % 256;
    assert a == 256 * b + a % 256 by { assert n / 256 / 256 == n / 0x1_0000; }
    assert b == 256 * c + b % 256 by { assert n / 0x1_0000 / 256 == n / 0x100_0000; }
    assert c < 256;
  }

  lemma Int32Back(n: int, pre: Blob, post: Blob)
    requires 0 <= n < INT32_LIMIT
    ensures ReadInt32(pre + Int32(n) + post, |pre|) == n
  {
    hide ToOctet, ToInt;
    OctetBack(n % 256);
    OctetBack(n / 256 % 256);
    OctetBack(n / 0x1_0000 % 256);
    OctetBack(n / 0x100_0000 % 256);
    Digits(n);
    var s := pre + Int32(n) + post;
    assert forall i :: 0 <= i < 4 ==> s[|pre| + i] == Int32(n)[i];
  }

  // ---------- Writing ----------

  /** The bytes of a key or value behind its length. */
  function Sized(b: Blob): Blob {
    Int32(|b|) + b
  }

  function Payload(op: Op): Blob {
    match op
    case Put(k, v) => Sized(k) + Sized(v)
    case Delete(k) => Sized(k)
  }

  function TypeOf(op: Op): int {
    if op.Put? then WAL_RECORD_PUT else WAL_RECORD_DELETE
  }

  /** A record behind its checksum: total length, type, sequence number, payload. */
  function Body(kind: int, seqNo: int, payload: Blob): Blob {
    Int32(WAL_RECORD_HEADER + |payload|) + Int32(kind) + Int32(seqNo) + payload
  }

  function Record(kind: int, seqNo: int, payload: Blob): Blob {
    LittleEndian(Crc(Body(kind, seqNo, payload))) + Body(kind, seqNo, payload)
  }

  /** A record of an operation. */
  function OpRecord(op: Op, seqNo: int): Blob {
    Record(TypeOf(op), seqNo, Payload(op))
  }

  /** Lengths below 2^31 throughout. */
  ghost predicate Fits(op: Op) {
    WAL_RECORD_HEADER + |Payload(op)| < INT32_LIMIT
  }

  /** The bytes that an append writes: the body first, then its checksum in front. */
  method MakeRecord(kind: int, seqNo: int, payload: Blob) returns (r: Blob)
    ensures r == Record(kind, seqNo, payload)
  {
    var body := Int32(WAL_RECORD_HEADER + |payload|) + Int32(kind) + Int32(seqNo) + payload;
    var crc := Compute(body);
    r := LittleEndian(crc) + body;
  }

  /** Numbers lie with their low byte first, in the fields and in the checksum. */
  lemma LowByteFirst()
    ensures Int32(0x04030201) == [1, 2, 3, 4] && LittleEndian(0x04030201) == [1, 2, 3, 4]
  {
    hide Int32, LittleEndian;
    LowFirst32();
    LowFirstCrc();
  }

  lemma LowFirst32()
    ensures Int32(0x04030201) == [1, 2, 3, 4]
  {
    hide ToOctet;
    Small();
  }

  lemma LowFirstCrc()
    ensures LittleEndian(0x04030201) == [1, 2, 3, 4]
  {
  }

  lemma Small()
    ensures ToOctet(0) == 0 && ToOctet(1) == 1 && ToOctet(2) == 2 && ToOctet(3) == 3 && ToOctet(4) == 4
  {
  }

  /** The bytes of a put and of a delete record behind their checksum: length, type 1 or 2, sequence number, sized key,
      and for a put the sized value. */
  lemma RecordBytes(k: Blob, v: Blob, seqNo: int)
    ensures var r := OpRecord(Put(k, v), seqNo);
            && r[4..] == Int32(24 + |k| + |v|) + [1, 0, 0, 0] + Int32(seqNo) + Int32(|k|) + k + Int32(|v|) + v
            && r[..4] == LittleEndian(Crc(r[4..]))
    ensures var r := OpRecord(Delete(k), seqNo);
            && r[4..] == Int32(20 + |k|) + [2, 0, 0, 0] + Int32(seqNo) + Int32(|k|) + k
            && r[..4] == LittleEndian(Crc(r[4..]))
  {
    hide Crc, LittleEndian, Int32;
    TypeBytes();
    ChecksumInFront(1, seqNo, Payload(Put(k, v)));
    ChecksumInFront(2, seqNo, Payload(Delete(k)));
    assert Int32(24 + |k| + |v|) + [1, 0, 0, 0] + Int32(seqNo) + (Int32(|k|) + k + (Int32(|v|) + v))
        == Int32(24 + |k| + |v|) + [1, 0, 0, 0] + Int32(seqNo) + Int32(|k|) + k + Int32(|v|) + v;
    assert Int32(20 + |k|) + [2, 0, 0, 0] + Int32(seqNo) + (Int32(|k|) + k) == Int32(20 + |k|) + [2, 0, 0, 0] + Int32(seqNo) + Int32(|k|) + k;
  }

  lemma TypeBytes()
    ensures Int32(1) == [1, 0, 0, 0] && Int32(2) == [2, 0, 0, 0]
  {
    Small();
  }

  lemma ChecksumInFront(kind: int, seqNo: int, payload: Blob)
    ensures var r := Record(kind, seqNo, payload);
            && |r| >= 4 && r[..4] == LittleEndian(Crc(r[4..])) && r[4..] == Int32(16 + |payload|) + Int32(kind) + Int32(seqNo) + payload
  {
    hide Crc, LittleEndian, Int32;
    var r, body := Record(kind, seqNo, payload), Body(kind, seqNo, payload);
    assert r[4..] == body;
  }

  // ---------- Reading ----------

  datatype Read = Eof | Torn | Whole(rec: Blob)

  function FromLittleEndian(b: Blob): bv32
    requires |b| == 4
  {
    Wide(b[0]) | (Wide(b[1]) << 8) | (Wide(b[2]) << 16) | (Wide(b[3]) << 24)
  }

  lemma LittleEndianBack(c: bv32)
    ensures FromLittleEndian(LittleEndian(c)) == c
  {
  }

  /** The record at the front of what is left of the file. */
  function ReadNext(file: Blob): Read {
    if file == [] then Eof
    else if |file| < WAL_RECORD_HEADER then Torn
    else
      var len := ReadInt32(file, 4);
      if len < WAL_RECORD_HEADER || |file| < len then Torn
      else if Crc(file[4..len]) != FromLittleEndian(file[..4]) then Torn
      else Whole(file[..len])
  }

  /** The operation a whole record stands for; records of other kinds change nothing, and so do lengths that
      do not fit the record. */
  function Decode(rec: Blob): Option<Op> {
    if |rec| < 20 then None
    else
      var kind, len := ReadInt32(rec, 8), ReadInt32(rec, 16);
      if len < 0 || 20 + len > |rec| then None
      else
        var key := CString(rec[20..20 + len]);
        if kind == WAL_RECORD_DELETE then Some(Delete(key))
        else if kind == WAL_RECORD_PUT && 24 + len <= |rec| then
          var vlen := ReadInt32(rec, 20 + len);
          if vlen < 0 || 24 + len + vlen > |rec| then None else Some(Put(key, rec[24 + len..24 + len + vlen]))
        else None
  }

  // ---------- One record, written and read back ----------

  lemma BodyParts(kind: int, seqNo: int, payload: Blob)
    requires 0 <= kind < INT32_LIMIT && WAL_RECORD_HEADER + |payload| < INT32_LIMIT
    ensures var r := Record(kind, seqNo, payload);
            && |r| == WAL_RECORD_HEADER + |payload| && r[4..] == Body(kind, seqNo, payload) && r[16..] == payload
            && r[..4] == LittleEndian(Crc(Body(kind, seqNo, payload)))
            && ReadInt32(r, 4) == |r| && ReadInt32(r, 8) == kind
  {
    hide Crc, LittleEndian, ReadInt32, Int32;
    var c, n := LittleEndian(Crc(Body(kind, seqNo, payload))), WAL_RECORD_HEADER + |payload|;
    var r := Record(kind, seqNo, payload);
    var tail := Int32(seqNo) + payload;
    Int32Back(n, c, Int32(kind) + tail);
    assert r == c + Int32(n) + (Int32(kind) + tail);
    Int32Back(kind, c + Int32(n), tail);
    assert r == (c + Int32(n)) + Int32(kind) + tail;
  }

  /** A record is read back whole, whatever follows it. */
  lemma ReadBack(kind: int, seqNo: int, payload: Blob, rest: Blob)
    requires 0 <= kind < INT32_LIMIT && WAL_RECORD_HEADER + |payload| < INT32_LIMIT
    ensures ReadNext(Record(kind, seqNo, payload) + rest) == Whole(Record(kind, seqNo, payload))
  {
    hide Crc, LittleEndian, ReadInt32, Int32, FromLittleEndian, Record, Body;
    var r := Record(kind, seqNo, payload);
    BodyParts(kind, seqNo, payload);
    var file := r + rest;
    ReadSame(file, r, 4);
    assert file[..|r|] == r && file[4..|r|] == r[4..] && file[..4] == r[..4];
    LittleEndianBack(Crc(Body(kind, seqNo, payload)));
  }

  lemma ReadSame(a: Blob, b: Blob, at: nat)
    requires at + 4 <= |a| && at + 4 <= |b| && forall i :: at <= i < at + 4 ==> a[i] == b[i]
    ensures ReadInt32(a, at) == ReadInt32(b, at)
  {
  }

  /** A record cut short is never taken for a whole one. */
  lemma CutIsTorn(kind: int, seqNo: int, payload: Blob, n: nat)
    requires 0 <= kind < INT32_LIMIT && WAL_RECORD_HEADER + |payload| < INT32_LIMIT
    requires 0 < n < |Record(kind, seqNo, payload)|
    ensures ReadNext(Record(kind, seqNo, payload)[..n]) == Torn
  {
    hide Crc, LittleEndian, ReadInt32, Int32, FromLittleEndian, Record, Body;
    var r := Record(kind, seqNo, payload);
    BodyParts(kind, seqNo, payload);
    if n >= WAL_RECORD_HEADER {
      ReadSame(r[..n], r, 4);
    }
  }

  /** A record with a burst of at most four changed bytes behind its length is never taken for a whole one. */
  lemma BurstIsTorn(kind: int, seqNo: int, payload: Blob, bad: Blob, i: nat, n: nat, rest: Blob)
    requires 0 <= kind < INT32_LIMIT && WAL_RECORD_HEADER + |payload| < INT32_LIMIT
    requires var r := Record(kind, seqNo, payload);
             && |bad| == |r| && bad != r && 8 <= i && i + n <= |r| && n <= 4
             && bad[..i] == r[..i] && bad[i + n..] == r[i + n..]
    ensures ReadNext(bad + rest) == Torn
  {
    hide Crc, LittleEndian, ReadInt32, Int32, FromLittleEndian, Record, Body;
    var r := Record(kind, seqNo, payload);
    BodyParts(kind, seqNo, payload);
    var file := bad + rest;
    forall x | 0 <= x < i ensures bad[x] == r[x] { assert bad[..i][x] == r[..i][x]; }
    ReadSame(file, r, 4);
    assert file[4..|r|] == bad[4..] && file[..4] == r[..4];
    var a, b := r[4..], bad[4..];
    assert a[..i - 4] == r[4..i] && b[..i - 4] == bad[4..i] && r[4..i] == bad[4..i];
    assert a[i - 4 + n..] == r[i + n..] && b[i - 4 + n..] == bad[i + n..];
    assert r == r[..4] + a && bad == bad[..4] + b;
    BurstDetected(a, b, i - 4, n);
    LittleEndianBack(Crc(Body(kind, seqNo, payload)));
  }

  /** A record with changed bytes in its checksum only, however many, is never taken for a whole one. */
  lemma ChecksumIsTorn(kind: int, seqNo: int, payload: Blob, bad: Blob, rest: Blob)
    requires 0 <= kind < INT32_LIMIT && WAL_RECORD_HEADER + |payload| < INT32_LIMIT
    requires var r := Record(kind, seqNo, payload); |bad| == |r| && bad != r && bad[4..] == r[4..]
    ensures ReadNext(bad + rest) == Torn
  {
    hide Crc, LittleEndian, ReadInt32, Int32, FromLittleEndian, Record, Body;
    var r := Record(kind, seqNo, payload);
    BodyParts(kind, seqNo, payload);
    var file := bad + rest;
    forall x | 4 <= x < 8 ensures bad[x] == r[x] { assert bad[4..][x - 4] == r[4..][x - 4]; }
    ReadSame(file, r, 4);
    assert file[4..|r|] == bad[4..] && file[..4] == bad[..4];
    assert r == r[..4] + r[4..] && bad == bad[..4] + bad[4..];
    if FromLittleEndian(bad[..4]) == Crc(Body(kind, seqNo, payload)) {
      LittleEndianOnly(bad[..4], Crc(Body(kind, seqNo, payload)));
    }
  }

  lemma LittleEndianOnly(b: Blob, c: bv32)
    requires |b| == 4 && FromLittleEndian(b) == c
    ensures b == LittleEndian(c)
  {
  }

  /** What a short burst may do to a record: change its checksum, or up to four bytes in a row behind its length. */
  ghost predicate Damaged(r: Blob, bad: Blob, i: nat, n: nat) {
    && |bad| == |r| && bad != r && 8 <= |r|
    && (bad[4..] == r[4..] || (8 <= i && i + n <= |r| && n <= 4 && bad[..i] == r[..i] && bad[i + n..] == r[i + n..]))
  }

  lemma SizedParts(b: Blob, pre: Blob, post: Blob)
    requires |b| < INT32_LIMIT
    ensures var s := pre + Sized(b) + post;
            |s| == |pre| + 4 + |b| + |post| && ReadInt32(s, |pre|) == |b| && s[|pre| + 4..|pre| + 4 + |b|] == b
  {
    hide ReadInt32, Int32;
    Int32Back(|b|, pre, b + post);
    assert pre + Sized(b) + post == pre + Int32(|b|) + (b + post);
  }

  /** The record of an operation decodes to that operation, its key cut at its first zero byte. */
  lemma DecodeBack(op: Op, seqNo: int)
    requires Fits(op)
    ensures Decode(OpRecord(op, seqNo)) == Some(if op.Put? then Put(CString(op.key), op.val) else Delete(CString(op.key)))
  {
    hide ReadInt32, Int32, Sized, Record, Body, CString;
    var r := OpRecord(op, seqNo);
    SizedLength(op);
    BodyParts(TypeOf(op), seqNo, Payload(op));
    var head := r[..16];
    var n := |op.key|;
    if op.Put? {
      assert r == head + Sized(op.key) + Sized(op.val);
      SizedParts(op.key, head, Sized(op.val));
      var pre := head + Sized(op.key);
      assert r == pre + Sized(op.val) + [];
      SizedParts(op.val, pre, []);
    } else {
      assert r == head + Sized(op.key) + [];
      SizedParts(op.key, head, []);
    }
  }

  lemma SizedLength(op: Op)
    ensures |Payload(op)| == 4 + |op.key| + if op.Put? then 4 + |op.val| else 0
  {
  }

  /** An operation survives the log exactly when its key has no zero byte; a value survives always. */
  lemma SurvivesLog(op: Op, seqNo: int)
    requires Fits(op)
    ensures Decode(OpRecord(op, seqNo)) == Some(op) <==> NulFree(op.key)
  {
    hide Decode, CString, OpRecord;
    DecodeBack(op, seqNo);
    CStringWhole(op.key);
  }

  // ---------- Whole logs ----------

  /** The log of a sequence of operations. */
  function Log(ops: seq<Op>, seqNos: seq<int>): Blob
    requires |seqNos| == |ops|
  {
    if ops == [] then [] else OpRecord(ops[0], seqNos[0]) + Log(ops[1..], seqNos[1..])
  }

  /** What a whole record makes the replay do. */
  function Effect(rec: Blob): seq<Op> {
    var op := Decode(rec);
    if op.Some? then [op.value] else []
  }

  /** The operations that a replay applies, in order, up to the first record that is not whole; and how far it read. */
  function Replayed(file: Blob): (seq<Op>, nat)
    decreases |file|
  {
    match ReadNext(file)
    case Whole(rec) =>
      RecordNotEmpty(file);
      var (ops, n) := Replayed(file[|rec|..]);
      (Effect(rec) + ops, |rec| + n)
    case _ => ([], 0)
  }

  lemma RecordNotEmpty(file: Blob)
    ensures ReadNext(file).Whole? ==> 0 < |ReadNext(file).rec| <= |file|
  {
    hide ReadInt32, Crc, FromLittleEndian;
  }

  lemma StopsAt(file: Blob)
    requires !ReadNext(file).Whole?
    ensures Replayed(file) == ([], 0)
  {
    hide ReadNext;
  }

  lemma OneMore(file: Blob, rec: Blob)
    requires ReadNext(file) == Whole(rec) && |rec| <= |file|
    ensures Replayed(file).0 == Effect(rec) + Replayed(file[|rec|..]).0
    ensures Replayed(file).1 == |rec| + Replayed(file[|rec|..]).1
  {
    hide ReadNext, Effect;
    RecordNotEmpty(file);
  }

  ghost predicate Loggable(ops: seq<Op>) {
    forall i :: 0 <= i < |ops| ==> Fits(ops[i]) && NulFree(ops[i].key)
  }

  /** Replaying a log gives back the operations, and then whatever follows. */
  lemma {:induction false} ReplayLog(ops: seq<Op>, seqNos: seq<int>, rest: Blob)
    requires |seqNos| == |ops| && Loggable(ops)
    ensures var (o, n) := Replayed(Log(ops, seqNos) + rest); var (o2, n2) := Replayed(rest);
            o == ops + o2 && n == |Log(ops, seqNos)| + n2
    decreases |ops|
  {
    hide ReadNext, Decode, OpRecord, Fits, NulFree;
    if ops == [] {
      assert Log(ops, seqNos) + rest == rest;
    } else {
      var r, tail := OpRecord(ops[0], seqNos[0]), Log(ops[1..], seqNos[1..]);
      assert Log(ops, seqNos) + rest == r + (tail + rest);
      FirstRecord(ops[0], seqNos[0], tail + rest);
      assert (r + (tail + rest))[|r|..] == tail + rest;
      ReplayLog(ops[1..], seqNos[1..], rest);
      assert ops == [ops[0]] + ops[1..];
    }
  }

  lemma FirstRecord(op: Op, seqNo: int, rest: Blob)
    requires Fits(op) && NulFree(op.key)
    ensures ReadNext(OpRecord(op, seqNo) + rest) == Whole(OpRecord(op, seqNo)) && Decode(OpRecord(op, seqNo)) == Some(op)
  {
    hide ReadNext, Decode, Record, NulFree;
    ReadBack(TypeOf(op), seqNo, Payload(op), rest);
    SurvivesLog(op, seqNo);
  }

  /** How many whole records of the log fit into its first `n` bytes. */
  function WholeRecords(ops: seq<Op>, seqNos: seq<int>, n: nat): (k: nat)
    requires |seqNos| == |ops|
    ensures k <= |ops|
  {
    if ops == [] || n < |OpRecord(ops[0], seqNos[0])| then 0
    else 1 + WholeRecords(ops[1..], seqNos[1..], n - |OpRecord(ops[0], seqNos[0])|)
  }

  /** Crash recovery: of a log cut off at any byte, replay applies exactly the operations whose records are
      complete, and reports the end of the last complete record as the length to keep. */
  lemma {:induction false} CrashRecovery(ops: seq<Op>, seqNos: seq<int>, n: nat)
    requires |seqNos| == |ops| && Loggable(ops) && n <= |Log(ops, seqNos)|
    ensures var k := WholeRecords(ops, seqNos, n);
            Replayed(Log(ops, seqNos)[..n]) == (ops[..k], |Log(ops[..k], seqNos[..k])|)
    decreases |ops|
  {
    hide ReadNext, Decode, OpRecord, Fits, NulFree;
    if ops == [] {
      assert Log(ops, seqNos)[..n] == [];
      NothingLeft();
    } else {
      var r, tail := OpRecord(ops[0], seqNos[0]), Log(ops[1..], seqNos[1..]);
      var file := Log(ops, seqNos)[..n];
      if n < |r| {
        assert file == r[..n];
        CutRecord(ops[0], seqNos[0], n);
      } else {
        var k := WholeRecords(ops[1..], seqNos[1..], n - |r|);
        assert file == r + tail[..n - |r|];
        FirstRecord(ops[0], seqNos[0], tail[..n - |r|]);
        assert file[|r|..] == tail[..n - |r|];
        CrashRecovery(ops[1..], seqNos[1..], n - |r|);
        assert ops[..k + 1] == [ops[0]] + ops[1..][..k] && ops[..k + 1][1..] == ops[1..][..k];
        assert seqNos[..k + 1][1..] == seqNos[1..][..k];
      }
    }
  }

  lemma NothingLeft()
    ensures ReadNext([]) == Eof
  {
  }

  lemma CutRecord(op: Op, seqNo: int, n: nat)
    requires Fits(op) && n < |OpRecord(op, seqNo)|
    ensures !ReadNext(OpRecord(op, seqNo)[..n]).Whole?
  {
    hide ReadNext, Record;
    if n == 0 {
      assert OpRecord(op, seqNo)[..n] == [];
      NothingLeft();
    } else {
      CutIsTorn(TypeOf(op), seqNo, Payload(op), n);
    }
  }

  /** Corruption: changed bytes in a record's checksum, or up to four in a row behind its length, stop the
      replay in front of that record, whatever comes after it. */
  lemma CorruptionStops(ops: seq<Op>, seqNos: seq<int>, op: Op, seqNo: int, bad: Blob, i: nat, n: nat, rest: Blob)
    requires |seqNos| == |ops| && Loggable(ops) && Fits(op) && Damaged(OpRecord(op, seqNo), bad, i, n)
    ensures Replayed(Log(ops, seqNos) + (bad + rest)) == (ops, |Log(ops, seqNos)|)
  {
    hide ReadNext, Record, Log, Replayed, NulFree, Payload;
    if bad[4..] == OpRecord(op, seqNo)[4..] {
      ChecksumIsTorn(TypeOf(op), seqNo, Payload(op), bad, rest);
    } else {
      BurstIsTorn(TypeOf(op), seqNo, Payload(op), bad, i, n, rest);
    }
    StopsAt(bad + rest);
    assert ops + [] == ops;
    ReplayLog(ops, seqNos, bad + rest);
  }

  // ---------- The replay loop ----------

  /** The file as a replay leaves it: cut behind the last whole record when what follows is torn. */
  ghost function Kept(file: Blob): Blob {
    ReplayedInside(file);
    var n := Replayed(file).1;
    if ReadNext(file[n..]) == Torn then file[..n] else file
  }

  lemma {:induction false} ReplayedInside(file: Blob)
    ensures Replayed(file).1 <= |file|
    decreases |file|
  {
    hide ReadNext, Effect;
    if ReadNext(file).Whole? {
      RecordNotEmpty(file);
      ReplayedInside(file[|ReadNext(file).rec|..]);
    }
  }

  /** A replay stops where no whole record follows. */
  lemma {:induction false} ReplayStops(file: Blob)
    ensures Replayed(file).1 <= |file| && !ReadNext(file[Replayed(file).1..]).Whole?
    decreases |file|
  {
    hide ReadNext, Effect;
    if ReadNext(file).Whole? {
      var n := |ReadNext(file).rec|;
      RecordNotEmpty(file);
      ReplayStops(file[n..]);
      assert file[n..][Replayed(file[n..]).1..] == file[Replayed(file).1..];
    } else {
      assert file[0..] == file;
    }
  }

  lemma EofIs(file: Blob)
    requires !ReadNext(file).Whole? && ReadNext(file) != Torn
    ensures file == []
  {
    hide ReadInt32, Crc, FromLittleEndian;
  }

  /** The log of the first `k` operations is the front of the log. */
  lemma {:induction false} LogFront(ops: seq<Op>, seqNos: seq<int>, k: nat)
    requires |seqNos| == |ops| && k <= |ops|
    ensures Log(ops[..k], seqNos[..k]) <= Log(ops, seqNos)
    decreases |ops|
  {
    hide OpRecord;
    if k > 0 {
      LogFront(ops[1..], seqNos[1..], k - 1);
      assert ops[..k][1..] == ops[1..][..k - 1] && seqNos[..k][1..] == seqNos[1..][..k - 1];
      var r, a, b := OpRecord(ops[0], seqNos[0]), Log(ops[1..][..k - 1], seqNos[1..][..k - 1]), Log(ops[1..], seqNos[1..]);
      assert r + a <= r + b by { assert b == a + b[|a|..]; assert r + b == r + a + b[|a|..]; }
    }
  }

  /** Rebuilds a memtable from the log, record by record. */
  method Replay(file: Blob, mt: Mem) returns (kept: Blob)
    requires !mt.frozen && !mt.destroyed
    modifies mt`entries
    ensures mt.entries == ApplyAll(old(mt.entries), Replayed(file).0) && kept == Kept(file)
  {
    hide ReadNext, Decode, Replayed, ApplyAll;
    var at: nat := 0;
    ghost var done: seq<Op> := [];
    assert file[0..] == file;
    ApplyNone(mt.entries);
    while true
      invariant at <= |file| && !mt.frozen && !mt.destroyed && mt.entries == ApplyAll(old(mt.entries), done)
      invariant Replayed(file).0 == done + Replayed(file[at..]).0 && Replayed(file).1 == at + Replayed(file[at..]).1
      decreases |file| - at
    {
      var r := ReadNext(file[at..]);
      match r
      case Eof =>
        StopsAt(file[at..]);
        assert done + [] == done;
        return file;
      case Torn =>
        StopsAt(file[at..]);
        assert done + [] == done;
        return file[..at];
      case Whole(rec) =>
        RecordNotEmpty(file[at..]);
        OneMore(file[at..], rec);
        ApplyMore(old(mt.entries), done, Effect(rec));
        ApplyRecord(rec, mt);
        done := done + Effect(rec);
        assert file[at..][|rec|..] == file[at + |rec|..];
        at := at + |rec|;
    }
  }

  method ApplyRecord(rec: Blob, mt: Mem)
    requires !mt.frozen && !mt.destroyed
    modifies mt`entries
    ensures mt.entries == ApplyAll(old(mt.entries), Effect(rec))
  {
    hide Decode;
    ApplyNone(mt.entries);
    var op := Decode(rec);
    if op.Some? {
      ApplyOne(mt.entries, op.value);
      if op.value.Put? {
        var code := mt.MtPut(op.value.key, op.value.val);
      } else {
        var code := mt.MtDelete(op.value.key);
      }
    }
  }

  lemma ApplyNone(t: Table)
    ensures ApplyAll(t, []) == t
  {
  }

  lemma ApplyOne(t: Table, op: Op)
    ensures ApplyAll(t, [op]) == Apply(t, op)
  {
    assert [op][..0] == [];
  }
}
