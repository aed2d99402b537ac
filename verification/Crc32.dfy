/** The checksum of the log and of the table files: a table-driven loop over bytes. It is the reflected
    division of RFC 1952 taken one message bit at a time, it tells apart any two messages that differ
    inside four consecutive bytes, and it leaves the same residue behind every message. */
module Crc32 {
  import opened Octets

  const POLY: bv32 := 0xEDB88320
  const ALL: bv32 := 0xFFFF_FFFF

  function Xor(a: bv32, b: bv32): bv32 {
    a ^ b
  }

  function Half(a: bv32): bv32 {
    a >> 1
  }

  predicate Odd(a: bv32) {
    a & 1 != 0
  }

  function Wide(b: Octet): bv32 {
    b as bv32
  }

  /** One step of the division: the register moves one bit on. */
  function Bit(c: bv32): bv32 {
    if Odd(c) then Xor(POLY, Half(c)) else Half(c)
  }

  function Steps(c: bv32, n: nat): bv32
    decreases n
  {
    if n == 0 then c else Steps(Bit(c), n - 1)
  }

  /** The register after one more message byte. */
  function Update(c: bv32, b: Octet): bv32 {
    Steps(Xor(c, Wide(b)), 8)
  }

  /** The register after a message. */
  function Run(c: bv32, msg: seq<Octet>): bv32
    decreases |msg|
  {
    if msg == [] then c else Update(Run(c, msg[..|msg| - 1]), msg[|msg| - 1])
  }

  function Crc(msg: seq<Octet>): bv32 {
    Xor(Run(ALL, msg), ALL)
  }

  // ---------- The division one message bit at a time ----------

  /** The bits of a message, the low bit of each byte first. */
  ghost function BitsOf(v: bv32, k: nat): seq<bool>
    decreases k
  {
    if k == 0 then [] else [Odd(v)] + BitsOf(Half(v), k - 1)
  }

  ghost function Bits(msg: seq<Octet>): seq<bool> {
    if msg == [] then [] else Bits(msg[..|msg| - 1]) + BitsOf(Wide(msg[|msg| - 1]), 8)
  }

  /** Long division: the register's low bit and the next message bit decide whether the divisor is subtracted. */
  ghost function Divide(c: bv32, bits: seq<bool>): bv32
    decreases |bits|
  {
    if bits == [] then c
    else Divide(if Odd(c) != bits[0] then Xor(POLY, Half(c)) else Half(c), bits[1..])
  }

  ghost function Halves(v: bv32, k: nat): bv32
    decreases k
  {
    if k == 0 then v else Halves(Half(v), k - 1)
  }

  lemma HalfXor(x: bv32, y: bv32)
    ensures Half(Xor(x, y)) == Xor(Half(x), Half(y))
  {
  }

  lemma OddIs(x: bv32)
    ensures x & 1 == if Odd(x) then 1 else 0
  {
  }

  lemma OddXor(x: bv32, y: bv32)
    ensures Odd(Xor(x, y)) <==> Odd(x) != Odd(y)
  {
    OddIs(x);
    OddIs(y);
    OddIs(Xor(x, y));
  }

  lemma XorBoth(p: bv32, a: bv32, b: bv32)
    ensures Xor(Xor(p, a), Xor(p, b)) == Xor(a, b)
  {
    hide Xor;
    XorLeft(p, a, Xor(p, b));
    XorRight(p, a, b);
    XorTwice(p, Xor(a, b));
  }

  lemma XorTwice(p: bv32, a: bv32)
    ensures Xor(p, Xor(p, a)) == a
  {
  }

  lemma XorLeft(p: bv32, a: bv32, b: bv32)
    ensures Xor(Xor(p, a), b) == Xor(p, Xor(a, b))
  {
  }

  lemma XorRight(p: bv32, a: bv32, b: bv32)
    ensures Xor(a, Xor(p, b)) == Xor(p, Xor(a, b))
  {
  }

  lemma XorZero(a: bv32)
    ensures Xor(a, 0) == a && Xor(0, a) == a && Xor(a, a) == 0
  {
  }

  /** The bits of one byte, divided in turn, are the byte added at once and eight steps. */
  lemma {:induction false} DivideByte(c: bv32, v: bv32, k: nat)
    requires Halves(v, k) == 0
    ensures Divide(c, BitsOf(v, k)) == Steps(Xor(c, v), k)
    decreases k
  {
    hide Xor, Half, Odd;
    if k == 0 {
      XorZero(c);
    } else {
      var c2 := if Odd(c) != Odd(v) then Xor(POLY, Half(c)) else Half(c);
      OddXor(c, v);
      HalfXor(c, v);
      XorLeft(POLY, Half(c), Half(v));
      DivideByte(c2, Half(v), k - 1);
      assert BitsOf(v, k)[1..] == BitsOf(Half(v), k - 1);
    }
  }

  lemma {:induction false} DivideMore(c: bv32, a: seq<bool>, b: seq<bool>)
    ensures Divide(c, a + b) == Divide(Divide(c, a), b)
    decreases |a|
  {
    hide Xor, Half, Odd;
    if a == [] {
      assert a + b == b;
    } else {
      DivideMore(if Odd(c) != a[0] then Xor(POLY, Half(c)) else Half(c), a[1..], b);
      assert (a + b)[1..] == a[1..] + b;
    }
  }

  lemma WideFits(b: Octet)
    ensures Halves(Wide(b), 8) == 0
  {
    var v := Wide(b);
    assert Half(Half(Half(Half(Half(Half(Half(Half(v)))))))) == 0;
    HalvesOf(v);
  }

  lemma HalvesOf(v: bv32)
    ensures Halves(v, 8) == Half(Half(Half(Half(Half(Half(Half(Half(v))))))))
  {
    hide Half;
    var h4 := Half(Half(Half(Half(v))));
    assert Halves(v, 8) == Halves(Half(Half(v)), 6) == Halves(h4, 4);
    assert Halves(h4, 4) == Halves(Half(Half(h4)), 2) == Half(Half(Half(Half(h4))));
  }

  /** The checksum is the bit-at-a-time division of the message. */
  lemma {:induction false} CrcDivides(c: bv32, msg: seq<Octet>)
    ensures Run(c, msg) == Divide(c, Bits(msg))
    decreases |msg|
  {
    hide Xor, Half, Odd, Wide, Steps, BitsOf, Divide;
    if msg != [] {
      var n := |msg| - 1;
      CrcDivides(c, msg[..n]);
      DivideMore(c, Bits(msg[..n]), BitsOf(Wide(msg[n]), 8));
      WideFits(msg[n]);
      DivideByte(Run(c, msg[..n]), Wide(msg[n]), 8);
    } else {
      DivideNothing(c);
    }
  }

  lemma DivideNothing(c: bv32)
    ensures Divide(c, []) == c
  {
  }

  // ---------- Steps are linear and lose nothing ----------

  lemma BitXor(x: bv32, y: bv32)
    ensures Bit(Xor(x, y)) == Xor(Bit(x), Bit(y))
  {
    hide Xor, Half, Odd;
    HalfXor(x, y);
    OddXor(x, y);
    XorBoth(POLY, Half(x), Half(y));
    XorLeft(POLY, Half(x), Half(y));
    XorRight(POLY, Half(x), Half(y));
  }

  lemma {:induction false} StepsXor(x: bv32, y: bv32, n: nat)
    ensures Steps(Xor(x, y), n) == Xor(Steps(x, n), Steps(y, n))
    decreases n
  {
    hide Xor, Bit;
    if n > 0 {
      BitXor(x, y);
      StepsXor(Bit(x), Bit(y), n - 1);
    }
  }

  function Unbit(c: bv32): bv32 {
    if c & 0x8000_0000 != 0 then ((c ^ POLY) << 1) | 1 else c << 1
  }

  /** A step is a bijection of the register. */
  lemma BitBack(c: bv32)
    ensures Unbit(Bit(c)) == c && Bit(Unbit(c)) == c
  {
    BitBackOne(c);
    if c & 0x8000_0000 != 0 { UnbitOdd(c); } else { UnbitEven(c); }
  }

  lemma BitBackOne(c: bv32)
    ensures Unbit(Bit(c)) == c
  {
  }

  lemma UnbitOdd(c: bv32)
    requires c & 0x8000_0000 != 0
    ensures Half(Unbit(c)) == c ^ POLY && Odd(Unbit(c)) && Xor(POLY, c ^ POLY) == c
  {
  }

  lemma UnbitEven(c: bv32)
    requires c & 0x8000_0000 == 0
    ensures Half(Unbit(c)) == c && !Odd(Unbit(c))
  {
  }

  lemma {:induction false} StepsInjective(x: bv32, y: bv32, n: nat)
    requires Steps(x, n) == Steps(y, n)
    ensures x == y
    decreases n
  {
    hide Bit, Unbit;
    if n > 0 {
      StepsInjective(Bit(x), Bit(y), n - 1);
      BitBack(x);
      BitBack(y);
    }
  }

  /** From different registers the same bytes lead to different registers. */
  lemma {:induction false} RunInjective(x: bv32, y: bv32, msg: seq<Octet>)
    requires Run(x, msg) == Run(y, msg)
    ensures x == y
    decreases |msg|
  {
    hide Xor, Steps, Wide;
    if msg != [] {
      var n := |msg| - 1;
      var p, q := Run(x, msg[..n]), Run(y, msg[..n]);
      StepsInjective(Xor(p, Wide(msg[n])), Xor(q, Wide(msg[n])), 8);
      XorCancel(p, q, Wide(msg[n]));
      RunInjective(x, y, msg[..n]);
    }
  }

  lemma XorCancel(p: bv32, q: bv32, w: bv32)
    requires Xor(p, w) == Xor(q, w)
    ensures p == q
  {
  }

  lemma {:induction false} RunMore(c: bv32, a: seq<Octet>, b: seq<Octet>)
    ensures Run(c, a + b) == Run(Run(c, a), b)
    decreases |b|
  {
    hide Update;
    if b == [] {
      assert a + b == a;
    } else {
      var n := |b| - 1;
      assert (a + b)[..|a + b| - 1] == a + b[..n];
      RunMore(c, a, b[..n]);
    }
  }

  // ---------- Eight steps at once ----------

  function Shift8(x: bv32): bv32 {
    x >> 8
  }

  function Low8(x: bv32): bv32 {
    x & 0xFF
  }

  function High24(x: bv32): bv32 {
    x & 0xFFFF_FF00
  }

  lemma StepsEight(x: bv32)
    ensures Steps(x, 8) == Bit(Bit(Bit(Bit(Bit(Bit(Bit(Bit(x))))))))
  {
    hide Bit;
    var b4 := Bit(Bit(Bit(Bit(x))));
    assert Steps(x, 8) == Steps(Bit(Bit(x)), 6) == Steps(b4, 4);
    assert Steps(b4, 4) == Steps(Bit(Bit(b4)), 2) == Bit(Bit(Bit(Bit(b4))));
  }

  /** With nothing in the low byte, eight steps only shift. */
  lemma StepsShift(x: bv32)
    requires Low8(x) == 0
    ensures Steps(x, 8) == Shift8(x)
  {
    hide Steps;
    StepsEight(x);
  }

  lemma SplitLow(x: bv32)
    ensures Xor(Low8(x), High24(x)) == x && Low8(High24(x)) == 0 && Shift8(High24(x)) == Shift8(x)
  {
  }

  /** What the table holds for a byte value. */
  function TableEntry(b: Octet): bv32 {
    Steps(Wide(b), 8)
  }

  function LowByte(x: bv32): Octet {
    (x & 0xFF) as bv8
  }

  /** One table look-up and one shift take a byte in. */
  lemma TableStep(c: bv32, b: Octet)
    ensures Update(c, b) == Xor(TableEntry(LowByte(Xor(c, Wide(b)))), Shift8(c))
  {
    hide Xor, Steps, Shift8, Low8, High24, Wide, LowByte;
    var x := Xor(c, Wide(b));
    SplitLow(x);
    StepsXor(Low8(x), High24(x), 8);
    StepsShift(High24(x));
    LowIs(x);
    ShiftSame(c, b);
  }

  lemma LowIs(x: bv32)
    ensures Wide(LowByte(x)) == Low8(x)
  {
  }

  lemma ShiftSame(c: bv32, b: Octet)
    ensures Shift8(Xor(c, Wide(b))) == Shift8(c)
  {
  }

  /** The table, entry by entry: eight steps on each byte value. */
  method BuildTable() returns (table: seq<bv32>)
    ensures |table| == 256 && forall i :: 0 <= i < 256 ==> table[i] == TableEntry(i as bv8)
  {
    hide Bit, Steps, TableEntry;
    table := [];
    var i := 0;
    while i < 256
      invariant 0 <= i <= 256 && |table| == i && forall k :: 0 <= k < i ==> table[k] == TableEntry(k as bv8)
    {
      var c: bv32 := (i as bv8) as bv32;
      var j := 0;
      EntryStarts(i as bv8);
      while j < 8
        invariant 0 <= j <= 8 && Steps(c, 8 - j) == TableEntry(i as bv8)
      {
        BitIs(c);
        StepFirst(c, 8 - j);
        if c & 1 != 0 {
          c := POLY ^ (c >> 1);
        } else {
          c := c >> 1;
        }
        j := j + 1;
      }
      StepsNone(c);
      table := table + [c];
      i := i + 1;
    }
  }

  lemma EntryStarts(b: Octet)
    ensures TableEntry(b) == Steps(b as bv32, 8)
  {
  }

  lemma StepFirst(c: bv32, n: nat)
    requires n > 0
    ensures Steps(c, n) == Steps(Bit(c), n - 1)
  {
  }

  lemma BitIs(c: bv32)
    ensures Bit(c) == if c & 1 != 0 then POLY ^ (c >> 1) else c >> 1
  {
  }

  /** The checksum of a message, by table. */
  method Compute(msg: seq<Octet>) returns (r: bv32)
    ensures r == Crc(msg)
    ensures r == Xor(Divide(ALL, Bits(msg)), ALL)
  {
    hide Update, Divide, Bits, TableEntry, Xor, LowByte, Wide, Shift8, Run;
    RunNothing(ALL);
    var table := BuildTable();
    var crc := ALL;
    var i := 0;
    while i < |msg|
      invariant 0 <= i <= |msg| && crc == Run(ALL, msg[..i])
    {
      var idx := LowByte(Xor(crc, Wide(msg[i])));
      IndexIs(idx);
      TableStep(crc, msg[i]);
      assert msg[..i + 1][..i] == msg[..i];
      RunLast(ALL, msg[..i + 1]);
      crc := Xor(table[idx as int], Shift8(crc));
      i := i + 1;
    }
    assert msg[..i] == msg;
    CrcDivides(ALL, msg);
    r := Xor(crc, ALL);
  }

  lemma IndexIs(idx: Octet)
    ensures 0 <= idx as int < 256 && (idx as int) as bv8 == idx
  {
  }

  lemma RunNothing(c: bv32)
    ensures Run(c, []) == c
  {
  }

  // ---------- Differences inside four bytes ----------

  /** The bits above the lowest `j` bytes. */
  function HighBits(j: nat): bv32 {
    if j == 0 then ALL else if j == 1 then 0xFFFF_FF00 else if j == 2 then 0xFFFF_0000 else if j == 3 then 0xFF00_0000 else 0
  }

  predicate Small(v: bv32, j: nat) {
    v & HighBits(j) == 0
  }

  function Up8(v: bv32): bv32 {
    v << 8
  }

  /** Eight steps back from a small value are a shift up. */
  lemma StepsBack(d: bv32)
    requires Small(Steps(d, 8), 3)
    ensures d == Up8(Steps(d, 8))
  {
    hide Steps, Up8, Low8, Shift8, Small;
    var v := Steps(d, 8);
    ShiftUp(v);
    StepsShift(Up8(v));
    StepsInjective(d, Up8(v), 8);
  }

  lemma ShiftUp(v: bv32)
    requires Small(v, 3)
    ensures Low8(Up8(v)) == 0 && Shift8(Up8(v)) == v
  {
  }

  /** How the difference of two registers moves on. */
  lemma UpdateXor(c: bv32, d: bv32, a: Octet, b: Octet)
    ensures Xor(Update(c, a), Update(d, b)) == Steps(Xor(Xor(c, d), Xor(Wide(a), Wide(b))), 8)
  {
    hide Xor, Steps, Wide;
    StepsXor(Xor(c, Wide(a)), Xor(d, Wide(b)), 8);
    XorFour(c, Wide(a), d, Wide(b));
  }

  lemma XorFour(c: bv32, a: bv32, d: bv32, b: bv32)
    ensures Xor(Xor(c, a), Xor(d, b)) == Xor(Xor(c, d), Xor(a, b))
  {
    hide Xor;
    XorLeft(c, a, Xor(d, b));
    XorRight(d, a, b);
    XorLeft(c, d, Xor(a, b));
  }

  /** A difference that fits `4 - n` bytes after `n` different bytes was none at all. */
  lemma {:induction false} SmallDifference(c: bv32, a: seq<Octet>, b: seq<Octet>)
    requires |a| == |b| <= 4 && Small(Xor(Run(c, a), Run(c, b)), 4 - |a|)
    ensures a == b
    decreases |a|
  {
    hide Xor, Steps, Wide, Run, Small, Up8, Update;
    if a != [] {
      var n := |a| - 1;
      var p, q := Run(c, a[..n]), Run(c, b[..n]);
      RunLast(c, a);
      RunLast(c, b);
      UpdateXor(p, q, a[n], b[n]);
      var v := Steps(Xor(Xor(p, q), Xor(Wide(a[n]), Wide(b[n]))), 8);
      SmallThree(v, n);
      StepsBack(Xor(Xor(p, q), Xor(Wide(a[n]), Wide(b[n]))));
      DifferenceBefore(Xor(p, q), a[n], b[n], v, n);
      SmallDifference(c, a[..n], b[..n]);
      XorZero(p);
      NoDifference(a[n], b[n], v);
      assert a == a[..n] + [a[n]] && b == b[..n] + [b[n]];
    }
  }

  lemma RunLast(c: bv32, a: seq<Octet>)
    requires a != []
    ensures Run(c, a) == Update(Run(c, a[..|a| - 1]), a[|a| - 1])
  {
    hide Update;
  }

  lemma SmallThree(v: bv32, n: nat)
    requires n <= 3 && Small(v, 3 - n)
    ensures Small(v, 3)
  {
  }

  lemma DifferenceBefore(d: bv32, a: Octet, b: Octet, v: bv32, n: nat)
    requires n <= 3 && Xor(d, Xor(Wide(a), Wide(b))) == Up8(v) && Small(v, 3 - n)
    ensures Small(d, 4 - n)
  {
    hide Xor, Up8, Small;
    var x := Xor(Wide(a), Wide(b));
    XorCancelLeft(d, x, Up8(v));
    Apart(Wide(a), Wide(b));
    match n
    case 0 => Grows3(v, x);
    case 1 => Grows2(v, x);
    case 2 => Grows1(v, x);
    case _ => Grows0(v, x);
  }

  lemma Apart(a: bv32, b: bv32)
    requires a <= 255 && b <= 255
    ensures Xor(a, b) <= 255
  {
  }

  lemma Grows0(v: bv32, x: bv32)
    requires Small(v, 0) && x <= 255
    ensures Small(Xor(Up8(v), x), 1)
  {
  }

  lemma Grows1(v: bv32, x: bv32)
    requires Small(v, 1) && x <= 255
    ensures Small(Xor(Up8(v), x), 2)
  {
  }

  lemma Grows2(v: bv32, x: bv32)
    requires Small(v, 2) && x <= 255
    ensures Small(Xor(Up8(v), x), 3)
  {
  }

  lemma Grows3(v: bv32, x: bv32)
    requires Small(v, 3) && x <= 255
    ensures Small(Xor(Up8(v), x), 4)
  {
  }

  lemma XorCancelLeft(d: bv32, x: bv32, u: bv32)
    requires Xor(d, x) == u
    ensures d == Xor(u, x)
  {
  }

  lemma NoDifference(a: Octet, b: Octet, v: bv32)
    requires Xor(0, Xor(Wide(a), Wide(b))) == Up8(v)
    ensures a == b
  {
  }

  /** Two messages of the same length that differ, but only inside four consecutive bytes, have different checksums. */
  lemma BurstDetected(a: seq<Octet>, b: seq<Octet>, i: nat, n: nat)
    requires |a| == |b| && i + n <= |a| && n <= 4 && a != b
    requires a[..i] == b[..i] && a[i + n..] == b[i + n..]
    ensures Crc(a) != Crc(b)
  {
    hide Xor, Run, Small;
    var m, k := a[i..i + n], b[i..i + n];
    var c, tail := Run(ALL, a[..i]), a[i + n..];
    assert a == a[..i] + m + tail && b == b[..i] + k + tail;
    RunMore(ALL, a[..i], m);
    RunMore(ALL, a[..i] + m, tail);
    RunMore(ALL, b[..i], k);
    RunMore(ALL, b[..i] + k, tail);
    if Crc(a) == Crc(b) {
      XorCancel(Run(ALL, a), Run(ALL, b), ALL);
      RunInjective(Run(c, m), Run(c, k), tail);
      XorZero(Run(c, m));
      NoneFits(4 - n);
      SmallDifference(c, m, k);
    }
  }

  lemma NoneFits(j: nat)
    ensures Small(0, j)
  {
  }

  // ---------- The residue ----------

  /** A checksum as it is stored: four bytes, the low one first. */
  function LittleEndian(c: bv32): (r: seq<Octet>)
    ensures |r| == 4
  {
    [LowByte(c), LowByte(c >> 8), LowByte(c >> 16), LowByte(c >> 24)]
  }

  /** The register behind any message and its stored checksum. */
  const RESIDUE: bv32 := 0xDEBB_20E3

  lemma {:induction false} StepsAdd(x: bv32, m: nat, n: nat)
    ensures Steps(x, m + n) == Steps(Steps(x, m), n)
    decreases m
  {
    hide Bit;
    if m > 0 { StepsAdd(Bit(x), m - 1, n); }
  }

  function Raised(b: Octet, k: nat): bv32 {
    if k == 0 then Wide(b) else if k == 1 then Wide(b) << 8 else if k == 2 then Wide(b) << 16 else Wide(b) << 24
  }

  /** A byte that stands `k` places up is a byte on its own after `8 k` steps. */
  lemma {:induction false} RaisedDown(b: Octet, k: nat)
    requires k <= 3
    ensures Steps(Raised(b, k), 8 * k) == Wide(b)
    decreases k
  {
    hide Steps;
    if k == 0 {
      StepsNone(Raised(b, 0));
    } else {
      OneDown(b, k);
      StepsShift(Raised(b, k));
      StepsAdd(Raised(b, k), 8, 8 * (k - 1));
      RaisedDown(b, k - 1);
    }
  }

  lemma StepsNone(x: bv32)
    ensures Steps(x, 0) == x
  {
  }

  lemma OneDown(b: Octet, k: nat)
    requires 0 < k <= 3
    ensures Low8(Raised(b, k)) == 0 && Shift8(Raised(b, k)) == Raised(b, k - 1)
  {
    if k == 1 {
    } else if k == 2 {
    }
  }

  /** The k-th byte is taken in as if it had been there from the start. */
  lemma TakeByte(y: bv32, b: Octet, k: nat)
    requires k <= 3
    ensures Update(Steps(y, 8 * k), b) == Steps(Xor(y, Raised(b, k)), 8 * k + 8)
  {
    hide Xor, Steps, Wide, Raised;
    RaisedDown(b, k);
    StepsXor(y, Raised(b, k), 8 * k);
    StepsAdd(Xor(y, Raised(b, k)), 8 * k, 8);
  }

  /** Four stored bytes are taken in like one word of 32 bits. */
  lemma RunWord(c: bv32, w: bv32)
    ensures Run(c, LittleEndian(w)) == Steps(Xor(c, w), 32)
  {
    hide Xor, Steps, Update, Raised, LittleEndian;
    var bs := LittleEndian(w);
    FourUpdates(c, bs);
    StepsNone(c);
    var y1 := Xor(c, Raised(bs[0], 0));
    var y2 := Xor(y1, Raised(bs[1], 1));
    var y3 := Xor(y2, Raised(bs[2], 2));
    TakeByte(c, bs[0], 0);
    TakeByte(y1, bs[1], 1);
    TakeByte(y2, bs[2], 2);
    TakeByte(y3, bs[3], 3);
    WordBytes(c, w);
  }

  lemma WordBytes(c: bv32, w: bv32)
    ensures var bs := LittleEndian(w);
            Xor(Xor(Xor(Xor(c, Raised(bs[0], 0)), Raised(bs[1], 1)), Raised(bs[2], 2)), Raised(bs[3], 3)) == Xor(c, w)
  {
    hide Xor, Raised, LittleEndian, Part;
    var bs := LittleEndian(w);
    forall k | 0 <= k < 4 ensures Raised(bs[k], k) == Part(w, k) { RaisedPart(w, k); }
    PartsTogether(w);
    var p0, p1, p2, p3 := Part(w, 0), Part(w, 1), Part(w, 2), Part(w, 3);
    XorLeft(c, p0, p1);
    XorLeft(c, Xor(p0, p1), p2);
    XorLeft(c, Xor(Xor(p0, p1), p2), p3);
  }

  /** One byte of a word, where it stands. */
  function Part(w: bv32, k: nat): bv32 {
    if k == 0 then w & 0xFF else if k == 1 then w & 0xFF00 else if k == 2 then w & 0xFF_0000 else w & 0xFF00_0000
  }

  lemma RaisedPart(w: bv32, k: nat)
    requires k < 4
    ensures Raised(LittleEndian(w)[k], k) == Part(w, k)
  {
    if k == 0 {
    } else if k == 1 {
    } else if k == 2 {
    }
  }

  lemma PartsTogether(w: bv32)
    ensures Xor(Xor(Xor(Part(w, 0), Part(w, 1)), Part(w, 2)), Part(w, 3)) == w
  {
  }

  lemma FourUpdates(c: bv32, bs: seq<Octet>)
    requires |bs| == 4
    ensures Run(c, bs) == Update(Update(Update(Update(c, bs[0]), bs[1]), bs[2]), bs[3])
  {
    hide Update;
    assert bs[..3][..2] == bs[..2] && bs[..2][..1] == bs[..1] && bs[..1][..0] == [];
    assert Run(c, bs[..1]) == Update(c, bs[0]);
    assert Run(c, bs[..2]) == Update(Run(c, bs[..1]), bs[1]);
    assert Run(c, bs[..3]) == Update(Run(c, bs[..2]), bs[2]);
  }

  lemma StepsOfAll()
    ensures Steps(ALL, 32) == RESIDUE
  {
    hide Steps;
    StepsConst(0xFFFF_FFFF, 0x2DFD_1072);
    StepsConst(0x2DFD_1072, 0xBE26_ED00);
    StepsConst(0xBE26_ED00, 0x00BE_26ED);
    StepsConst(0x00BE_26ED, 0xDEBB_20E3);
    StepsAdd(ALL, 8, 24);
    StepsAdd(0x2DFD_1072, 8, 16);
    StepsAdd(0xBE26_ED00, 8, 8);
  }

  lemma StepsConst(x: bv32, y: bv32)
    requires Bit(Bit(Bit(Bit(Bit(Bit(Bit(Bit(x)))))))) == y
    ensures Steps(x, 8) == y
  {
    hide Bit, Steps;
    StepsEight(x);
  }

  /** Behind every message followed by its own stored checksum the register is the same. */
  lemma SameResidue(msg: seq<Octet>)
    ensures Run(ALL, msg + LittleEndian(Crc(msg))) == RESIDUE
  {
    hide Xor, Steps, Run, LittleEndian;
    var c := Run(ALL, msg);
    RunMore(ALL, msg, LittleEndian(Crc(msg)));
    RunWord(c, Crc(msg));
    XorTwice(c, ALL);
    StepsOfAll();
  }

  // ---------- The standard's check value ----------

  lemma EightSteps(c: bv32)
    ensures Steps(c, 8) == Bit(Bit(Bit(Bit(Bit(Bit(Bit(Bit(c))))))))
  {
    assert Steps(c, 8) == Steps(Bit(Bit(Bit(Bit(c)))), 4);
  }

  /** The check value that is published for this checksum: the nine digits from 1 to 9. */
  lemma CheckValue()
    ensures Crc([0x31, 0x32, 0x33, 0x34, 0x35, 0x36, 0x37, 0x38, 0x39]) == 0xCBF43926
  {
    hide Run, Update, Xor, Steps;
    var m: seq<Octet> := [0x31, 0x32, 0x33, 0x34, 0x35, 0x36, 0x37, 0x38, 0x39];
    RunNone();
    Digit1();
    RunNext(m, 0);
    Digit2();
    RunNext(m, 1);
    Digit3();
    RunNext(m, 2);
    Digit4();
    RunNext(m, 3);
    Digit5();
    RunNext(m, 4);
    Digit6();
    RunNext(m, 5);
    Digit7();
    RunNext(m, 6);
    Digit8();
    RunNext(m, 7);
    Digit9();
    RunNext(m, 8);
    assert m[..9] == m;
    LastXor();
  }

  lemma LastXor()
    ensures Xor(0x340BC6D9, ALL) == 0xCBF43926
  {
  }

  lemma RunNone()
    ensures Run(ALL, []) == ALL
  {
  }

  lemma RunNext(m: seq<Octet>, i: nat)
    requires i < |m|
    ensures m[..0] == [] && Run(ALL, m[..i + 1]) == Update(Run(ALL, m[..i]), m[i])
  {
    assert m[..i + 1][..i] == m[..i];
  }

  lemma Digit1()
    ensures Update(0xFFFFFFFF, 0x31) == 0x7C231048
  {
    EightSteps(Xor(0xFFFFFFFF, Wide(0x31)));
  }

  lemma Digit2()
    ensures Update(0x7C231048, 0x32) == 0xB0ACBB32
  {
    EightSteps(Xor(0x7C231048, Wide(0x32)));
  }

  lemma Digit3()
    ensures Update(0xB0ACBB32, 0x33) == 0x77B79C2D
  {
    EightSteps(Xor(0xB0ACBB32, Wide(0x33)));
  }

  lemma Digit4()
    ensures Update(0x77B79C2D, 0x34) == 0x641C1F5C
  {
    EightSteps(Xor(0x77B79C2D, Wide(0x34)));
  }

  lemma Digit5()
    ensures Update(0x641C1F5C, 0x35) == 0x340AC5E3
  {
    EightSteps(Xor(0x641C1F5C, Wide(0x35)));
  }

  lemma Digit6()
    ensures Update(0x340AC5E3, 0x36) == 0xF68D2C9E
  {
    EightSteps(Xor(0x340AC5E3, Wide(0x36)));
  }

  lemma Digit7()
    ensures Update(0xF68D2C9E, 0x37) == 0xAFFC9660
  {
    EightSteps(Xor(0xF68D2C9E, Wide(0x37)));
  }

  lemma Digit8()
    ensures Update(0xAFFC9660, 0x38) == 0x651F2550
  {
    EightSteps(Xor(0xAFFC9660, Wide(0x38)));
  }

  lemma Digit9()
    ensures Update(0x651F2550, 0x39) == 0x340BC6D9
  {
    EightSteps(Xor(0x651F2550, Wide(0x39)));
  }
}
