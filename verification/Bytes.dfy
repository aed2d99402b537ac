/** Byte strings, as the index sees them, and the two ways the index
    compares them: by common prefix and by lexicographic order. */
module Bytes {

  type Byte = x: int | 0 <= x < 256

  type Key = seq<Byte>

  /** Keys of the radix tree carry no zero byte: byte 0 is the edge of an exhausted key. */
  predicate ZeroFree(k: Key) {
    forall i :: 0 <= i < |k| ==> k[i] != 0
  }

  /** A key with its end made visible. Every path of the radix tree spells a prefix of one of these. */
  function Term(k: Key): Key {
    k + [0]
  }

  /** The byte that selects the edge at `d`: an exhausted key selects edge 0. */
  function EdgeByte(k: Key, d: nat): Byte {
    if d < |k| then k[d] else 0
  }

  /** The length of the common stretch of `a` from `i` on and `b` from `j` on. */
  function Common(a: Key, i: nat, b: Key, j: nat): (r: nat)
    requires i <= |a| && j <= |b|
    ensures i + r <= |a| && j + r <= |b|
    decreases |a| - i
  {
    if i < |a| && j < |b| && a[i] == b[j] then 1 + Common(a, i + 1, b, j + 1) else 0
  }

  lemma {:induction false} CommonIs(a: Key, i: nat, b: Key, j: nat)
    requires i <= |a| && j <= |b|
    ensures var r := Common(a, i, b, j);
            && i + r <= |a| && j + r <= |b|
            && a[i..i + r] == b[j..j + r]
            && (i + r < |a| && j + r < |b| ==> a[i + r] != b[j + r])
    decreases |a| - i
  {
    if i < |a| && j < |b| && a[i] == b[j] {
      CommonIs(a, i + 1, b, j + 1);
      var r := Common(a, i, b, j);
      assert a[i..i + r] == [a[i]] + a[i + 1..i + r];
      assert b[j..j + r] == [b[j]] + b[j + 1..j + r];
    }
  }

  /** How many bytes of `p` the key repeats from `d` on, stopping where either runs out. */
  function Agree(p: Key, k: Key, d: nat): (r: nat)
    requires d <= |k|
    ensures r <= |p| && d + r <= |k|
  {
    Common(p, 0, k, d)
  }

  /** Lexicographic order, the shorter key first: negative, zero or positive. */
  function Compare(a: Key, b: Key): (r: int)
    ensures -1 <= r <= 1
    ensures r == 0 <==> a == b
  {
    if a == [] || b == [] then
      if |a| < |b| then -1 else if |a| > |b| then 1 else 0
    else if a[0] < b[0] then -1
    else if a[0] > b[0] then 1
    else
      assert a == [a[0]] + a[1..] && b == [b[0]] + b[1..];
      Compare(a[1..], b[1..])
  }

  ghost predicate Less(a: Key, b: Key) {
    Compare(a, b) < 0
  }

  /** Two keys that agree on `n` bytes are ordered by what follows. */
  lemma {:induction false} CompareAt(a: Key, b: Key, n: nat)
    requires n <= |a| && n <= |b| && a[..n] == b[..n]
    ensures Compare(a, b) == Compare(a[n..], b[n..])
  {
    if n > 0 {
      assert a[0] == a[..n][0] && b[0] == b[..n][0];
      assert a[1..][..n - 1] == a[..n][1..] && b[1..][..n - 1] == b[..n][1..];
      CompareAt(a[1..], b[1..], n - 1);
      assert a[1..][n - 1..] == a[n..] && b[1..][n - 1..] == b[n..];
    } else {
      assert a[0..] == a && b[0..] == b;
    }
  }

  /** Keys that part at byte `n` are ordered by their edge bytes there. */
  lemma {:induction false} EdgeOrder(a: Key, b: Key, n: nat)
    requires n <= |a| && n <= |b| && a[..n] == b[..n]
    requires EdgeByte(a, n) < EdgeByte(b, n)
    ensures Less(a, b)
  {
    CompareAt(a, b, n);
  }

  lemma {:induction false} LessTransitive(a: Key, b: Key, c: Key)
    requires Less(a, b) && Less(b, c)
    ensures Less(a, c)
  {
    if a != [] && b != [] && c != [] && a[0] == b[0] == c[0] {
      LessTransitive(a[1..], b[1..], c[1..]);
    }
  }

  /** Distinct zero-free keys part inside both terminated forms, on different edges. */
  lemma TermSplits(a: Key, b: Key, n: nat)
    requires ZeroFree(a) && ZeroFree(b) && a != b
    requires n <= |a| && n <= |b| && a[..n] == b[..n]
    requires n < |a| && n < |b| ==> a[n] != b[n]
    ensures EdgeByte(a, n) != EdgeByte(b, n)
  {
  }
}
