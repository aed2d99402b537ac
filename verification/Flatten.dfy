/** The build step that inlines imports: each source file is written out once, an imported file in the
    place of the first import that reaches it, and every line remembers where it came from. */
module Flatten {
  import opened Options

  type Path = string

  /** A line with the newline that ends it; only the last line of a text may lack one. */
  type Line = string

  /** A line of a file, counted from 1. */
  datatype Origin = Origin(file: Path, line: nat)

  /** The files that exist, and the file that a line of a file imports, if it is an import. */
  datatype Tree = Tree(files: map<Path, seq<Line>>, imports: (Path, Line) -> Option<Path>)

  // ---------- Texts and their lines ----------

  predicate Ends(l: Line) {
    l != "" && l[|l| - 1] == '\n'
  }

  /** Nothing stands behind a newline. */
  predicate OneLine(l: Line) {
    l != "" && forall i :: 0 <= i < |l| - 1 ==> l[i] != '\n'
  }

  ghost predicate AllButLastEnd(ls: seq<Line>) {
    forall i :: 0 <= i < |ls| - 1 ==> Ends(ls[i])
  }

  ghost predicate AllOneLine(ls: seq<Line>) {
    forall i :: 0 <= i < |ls| ==> OneLine(ls[i])
  }

  /** The text that writing the lines one after the other gives; nothing is put between them. */
  function Text(ls: seq<Line>): string {
    if ls == [] then "" else ls[0] + Text(ls[1..])
  }

  /** Where the first line of a text ends. */
  function LineEnd(text: string): (n: nat)
    requires text != ""
    ensures 1 <= n <= |text|
  {
    if text[0] == '\n' || |text| == 1 then 1 else 1 + LineEnd(text[1..])
  }

  /** The lines that a reader of the text sees. */
  function Lines(text: string): seq<Line> {
    if text == "" then [] else [text[..LineEnd(text)]] + Lines(text[LineEnd(text)..])
  }

  /** The first line of a text that begins with `l`: `l` itself when it ends there, and more otherwise. */
  lemma {:induction false} FirstLine(l: Line, rest: string)
    requires OneLine(l)
    ensures if Ends(l) || rest == "" then LineEnd(l + rest) == |l| else LineEnd(l + rest) > |l|
  {
    if |l| == 1 {
      if !Ends(l) && rest != "" { assert (l + rest)[1..] == rest; }
    } else {
      assert (l + rest)[1..] == l[1..] + rest && (l + rest)[0] == l[0];
      FirstLine(l[1..], rest);
    }
  }

  /** Reading gives back the lines that were written exactly when each but the last ends in a newline. */
  lemma {:induction false} ReadBack(ls: seq<Line>)
    requires AllOneLine(ls)
    ensures ls <= Lines(Text(ls)) <==> AllButLastEnd(ls)
    ensures AllButLastEnd(ls) ==> Lines(Text(ls)) == ls
  {
    hide OneLine;
    if ls != [] {
      var rest := Text(ls[1..]);
      FirstLine(ls[0], rest);
      OneLineIs(ls[0]);
      assert |ls| > 1 ==> rest != "" by { if |ls| > 1 { OneLineIs(ls[1]); assert ls[1..][0] == ls[1]; } }
      assert |ls| == 1 ==> rest == "";
      ReadBack(ls[1..]);
      if Ends(ls[0]) || |ls| == 1 {
        assert (ls[0] + rest)[..|ls[0]|] == ls[0] && (ls[0] + rest)[|ls[0]|..] == rest;
        assert ls == [ls[0]] + ls[1..];
        assert Lines(Text(ls)) == [ls[0]] + Lines(rest);
        assert forall i :: 0 <= i < |ls[1..]| ==> ls[1..][i] == ls[i + 1];
        if AllButLastEnd(ls) { assert AllButLastEnd(ls[1..]); }
        if AllButLastEnd(ls[1..]) {
          forall i | 0 <= i < |ls| - 1 ensures Ends(ls[i]) { if i > 0 { assert Ends(ls[1..][i - 1]); } }
        }
        TailLines(ls[0], ls[1..], Lines(rest));
      } else {
        assert |Lines(Text(ls))[0]| > |ls[0]|;
      }
    }
  }

  lemma OneLineIs(l: Line)
    requires OneLine(l)
    ensures l != ""
  {
  }

  lemma TailLines(x: Line, a: seq<Line>, b: seq<Line>)
    ensures [x] + a <= [x] + b <==> a <= b
  {
    assert ([x] + a)[1..] == a && ([x] + b)[1..] == b;
    if [x] + a <= [x] + b {
      assert [x] + b == [x] + a + ([x] + b)[|a| + 1..];
      assert b == a + b[|a|..];
    }
  }

  /** The lines of any text are such lines, and make up the text. */
  lemma {:induction false} LinesOfText(text: string)
    ensures Text(Lines(text)) == text && AllOneLine(Lines(text)) && AllButLastEnd(Lines(text))
    decreases |text|
  {
    hide OneLine, Ends, LineEnd;
    if text != "" {
      var n := LineEnd(text);
      EndOfFirst(text);
      LinesOfText(text[n..]);
      var first, rest := text[..n], Lines(text[n..]);
      assert Lines(text) == [first] + rest;
      assert ([first] + rest)[1..] == rest;
      assert text == first + text[n..];
      assert n == |text| ==> rest == [];
      forall i | 0 <= i < |Lines(text)| ensures OneLine(Lines(text)[i]) && (i < |Lines(text)| - 1 ==> Ends(Lines(text)[i])) {
        if i > 0 { assert Lines(text)[i] == rest[i - 1]; }
      }
    }
  }

  lemma {:induction false} EndOfFirst(text: string)
    requires text != ""
    ensures var n := LineEnd(text); OneLine(text[..n]) && (n < |text| ==> Ends(text[..n]))
  {
    if text[0] != '\n' && |text| > 1 {
      EndOfFirst(text[1..]);
      var n := LineEnd(text);
      assert text[..n] == [text[0]] + text[1..][..n - 1];
    }
  }

  // ---------- Files and imports ----------

  /** The existing file that line `i` of `f` imports; an import of anything else stays an ordinary line. */
  function Imported(t: Tree, f: Path, i: nat): Option<Path>
    requires f in t.files && i < |t.files[f]|
  {
    var target := t.imports(f, t.files[f][i]);
    if target.Some? && target.value in t.files then target else None
  }

  ghost function Left(t: Tree, seen: set<Path>): nat {
    |t.files.Keys - seen|
  }

  lemma LeftFewer(t: Tree, a: set<Path>, b: set<Path>)
    requires a <= b
    ensures Left(t, b) <= Left(t, a)
    ensures (exists f :: f in t.files && f !in a && f in b) ==> Left(t, b) < Left(t, a)
  {
    var x, y := t.files.Keys - b, t.files.Keys - a;
    assert y == x + (y - x);
    if f :| f in t.files && f !in a && f in b {
      assert f in y - x;
    }
  }

  /** What processing a file adds to the files seen and to the lines written. */
  ghost function Flat(t: Tree, f: Path, seen: set<Path>): (r: (set<Path>, seq<Origin>))
    ensures seen <= r.0
    decreases Left(t, seen), 0
  {
    if f in seen then (seen, [])
    else if f !in t.files then (seen + {f}, [])
    else
      LeftFewer(t, seen, seen + {f});
      FlatFrom(t, f, 0, seen + {f})
  }

  /** The same for the lines of a file from line `i` on. */
  ghost function FlatFrom(t: Tree, f: Path, i: nat, seen: set<Path>): (r: (set<Path>, seq<Origin>))
    requires f in t.files && i <= |t.files[f]|
    ensures seen <= r.0
    decreases Left(t, seen), 1 + |t.files[f]| - i
  {
    if i == |t.files[f]| then (seen, [])
    else
      var p := Imported(t, f, i);
      if p.None? then
        var (s, o) := FlatFrom(t, f, i + 1, seen);
        (s, [Origin(f, i + 1)] + o)
      else
        var (s1, o1) := Flat(t, p.value, seen);
        LeftFewer(t, seen, s1);
        var (s2, o2) := FlatFrom(t, f, i + 1, s1);
        (s2, o1 + o2)
  }

  // ---------- Which files are seen ----------

  /** A chain of imports from one file to another. */
  ghost predicate Chain(t: Tree, c: seq<Path>) {
    c != [] && forall x :: 0 <= x < |c| - 1 ==> Imports(t, c[x], c[x + 1])
  }

  ghost predicate Imports(t: Tree, f: Path, p: Path) {
    f in t.files && p in t.files && exists i :: 0 <= i < |t.files[f]| && t.imports(f, t.files[f][i]) == Some(p)
  }

  ghost predicate Reaches(t: Tree, f: Path, p: Path) {
    exists c :: Chain(t, c) && c[0] == f && c[|c| - 1] == p
  }

  lemma ReachesSelf(t: Tree, f: Path)
    ensures Reaches(t, f, f)
  {
    assert Chain(t, [f]);
  }

  lemma ReachesFirst(t: Tree, f: Path, p: Path, q: Path)
    requires Imports(t, f, p) && Reaches(t, p, q)
    ensures Reaches(t, f, q)
  {
    var c :| Chain(t, c) && c[0] == p && c[|c| - 1] == q;
    var d := [f] + c;
    forall x | 0 <= x < |d| - 1 ensures Imports(t, d[x], d[x + 1]) {
      if x > 0 { assert d[x] == c[x - 1] && d[x + 1] == c[x]; }
    }
    assert Chain(t, d);
  }

  /** Everything newly seen is reached from the file. */
  lemma {:induction false} SeenReached(t: Tree, f: Path, seen: set<Path>, q: Path)
    requires q in Flat(t, f, seen).0 && q !in seen
    ensures Reaches(t, f, q)
    decreases Left(t, seen), 0
  {
    hide Reaches;
    ReachesSelf(t, f);
    if f !in seen && f in t.files {
      LeftFewer(t, seen, seen + {f});
      if q != f { SeenReachedFrom(t, f, 0, seen + {f}, q); }
    }
  }

  lemma {:induction false} SeenReachedFrom(t: Tree, f: Path, i: nat, seen: set<Path>, q: Path)
    requires f in t.files && i <= |t.files[f]| && q in FlatFrom(t, f, i, seen).0 && q !in seen
    ensures Reaches(t, f, q)
    decreases Left(t, seen), 1 + |t.files[f]| - i
  {
    hide Reaches;
    var p := Imported(t, f, i);
    if p.None? {
      SeenReachedFrom(t, f, i + 1, seen, q);
    } else {
      var s1 := Flat(t, p.value, seen).0;
      LeftFewer(t, seen, s1);
      if q in s1 {
        SeenReached(t, p.value, seen, q);
        ReachesFirst(t, f, p.value, q);
      } else {
        SeenReachedFrom(t, f, i + 1, s1, q);
      }
    }
  }

  /** The file itself is seen, and of every file newly seen all imports are. */
  lemma {:induction false} SeenClosed(t: Tree, f: Path, seen: set<Path>, p: Path, q: Path)
    requires p in Flat(t, f, seen).0 && p !in seen && Imports(t, p, q)
    ensures q in Flat(t, f, seen).0
    decreases Left(t, seen), 0
  {
    if f !in seen && f in t.files {
      LeftFewer(t, seen, seen + {f});
      if p == f {
        var i :| 0 <= i < |t.files[f]| && t.imports(f, t.files[f][i]) == Some(q);
        ImportSeen(t, f, 0, seen + {f}, i, q);
      } else {
        SeenClosedFrom(t, f, 0, seen + {f}, p, q);
      }
    }
  }

  lemma {:induction false} SeenClosedFrom(t: Tree, f: Path, i: nat, seen: set<Path>, p: Path, q: Path)
    requires f in t.files && i <= |t.files[f]| && p in FlatFrom(t, f, i, seen).0 && p !in seen && Imports(t, p, q)
    ensures q in FlatFrom(t, f, i, seen).0
    decreases Left(t, seen), 1 + |t.files[f]| - i
  {
    hide Imports;
    var n := Imported(t, f, i);
    if n.None? {
      SeenClosedFrom(t, f, i + 1, seen, p, q);
    } else {
      var s1 := Flat(t, n.value, seen).0;
      LeftFewer(t, seen, s1);
      if p in s1 {
        SeenClosed(t, n.value, seen, p, q);
      } else {
        SeenClosedFrom(t, f, i + 1, s1, p, q);
      }
    }
  }

  lemma {:induction false} ImportSeen(t: Tree, f: Path, i: nat, seen: set<Path>, j: nat, q: Path)
    requires f in t.files && i <= j < |t.files[f]| && Imported(t, f, j) == Some(q)
    ensures q in FlatFrom(t, f, i, seen).0
    decreases j - i
  {
    if i < j {
      var p := Imported(t, f, i);
      ImportSeen(t, f, i + 1, if p.None? then seen else Flat(t, p.value, seen).0, j, q);
    }
  }

  /** Exactly the files that the entry point reaches are visited, cycles or not. */
  lemma SeenExactly(t: Tree, f: Path, q: Path)
    ensures q in Flat(t, f, {}).0 <==> Reaches(t, f, q)
  {
    if q in Flat(t, f, {}).0 {
      SeenReached(t, f, {}, q);
    }
    if Reaches(t, f, q) {
      var c :| Chain(t, c) && c[0] == f && c[|c| - 1] == q;
      ChainSeen(t, f, c, |c| - 1);
    }
  }

  lemma {:induction false} ChainSeen(t: Tree, f: Path, c: seq<Path>, x: nat)
    requires Chain(t, c) && c[0] == f && x < |c|
    ensures c[x] in Flat(t, f, {}).0
    decreases x
  {
    hide Imports, Imported;
    if x > 0 {
      ChainSeen(t, f, c, x - 1);
      assert Imports(t, c[x - 1], c[x - 1 + 1]);
      SeenClosed(t, f, {}, c[x - 1], c[x]);
    }
  }

  // ---------- Which lines are written ----------

  /** The lines of a file that name no existing file, from line `i` on. */
  ghost function Kept(t: Tree, f: Path, i: nat): seq<Origin>
    requires f in t.files && i <= |t.files[f]|
    decreases |t.files[f]| - i
  {
    if i == |t.files[f]| then []
    else
      var p := t.imports(f, t.files[f][i]);
      (if p.None? || p.value !in t.files then [Origin(f, i + 1)] else []) + Kept(t, f, i + 1)
  }

  /** The lines written that come from one file. */
  ghost function From(o: seq<Origin>, p: Path): seq<Origin> {
    if o == [] then [] else (if o[0].file == p then [o[0]] else []) + From(o[1..], p)
  }

  lemma FromCons(x: Origin, s: seq<Origin>, p: Path)
    ensures From([x] + s, p) == (if x.file == p then [x] else []) + From(s, p)
  {
    assert ([x] + s)[1..] == s;
  }

  lemma {:induction false} FromConcat(a: seq<Origin>, b: seq<Origin>, p: Path)
    ensures From(a + b, p) == From(a, p) + From(b, p)
  {
    hide From;
    if a == [] {
      FromNone(p);
      assert a + b == b;
    } else {
      FromConcat(a[1..], b, p);
      FromCons(a[0], a[1..], p);
      FromCons(a[0], a[1..] + b, p);
      assert a == [a[0]] + a[1..] && a + b == [a[0]] + (a[1..] + b);
    }
  }

  /** Each file newly seen is written once, its kept lines in order; no other file is. */
  lemma {:induction false} WrittenOnce(t: Tree, f: Path, seen: set<Path>, p: Path)
    ensures var (s, o) := Flat(t, f, seen);
            From(o, p) == if p in s && p !in seen && p in t.files then Kept(t, p, 0) else []
    decreases Left(t, seen), 0
  {
    hide Kept;
    if f !in seen && f in t.files {
      LeftFewer(t, seen, seen + {f});
      WrittenFrom(t, f, 0, seen + {f}, p);
    }
  }

  lemma {:induction false} WrittenFrom(t: Tree, f: Path, i: nat, seen: set<Path>, p: Path)
    requires f in t.files && i <= |t.files[f]| && f in seen
    ensures var (s, o) := FlatFrom(t, f, i, seen);
            From(o, p) == if p == f then Kept(t, f, i) else if p in s && p !in seen && p in t.files then Kept(t, p, 0) else []
    decreases Left(t, seen), 1 + |t.files[f]| - i
  {
    hide From, Imported;
    KeptStep(t, f, i);
    if i == |t.files[f]| {
      FromNone(p);
    } else {
      var n := Imported(t, f, i);
      if n.None? {
        WrittenFrom(t, f, i + 1, seen, p);
        FromConcat([Origin(f, i + 1)], FlatFrom(t, f, i + 1, seen).1, p);
        FromOne(Origin(f, i + 1), p);
      } else {
        var (s1, o1) := Flat(t, n.value, seen);
        LeftFewer(t, seen, s1);
        WrittenOnce(t, n.value, seen, p);
        WrittenFrom(t, f, i + 1, s1, p);
        FromConcat(o1, FlatFrom(t, f, i + 1, s1).1, p);
      }
    }
  }

  lemma KeptStep(t: Tree, f: Path, i: nat)
    requires f in t.files && i <= |t.files[f]|
    ensures Kept(t, f, i) == if i == |t.files[f]| then [] else (if Imported(t, f, i).None? then [Origin(f, i + 1)] else []) + Kept(t, f, i + 1)
  {
  }

  lemma FromNone(p: Path)
    ensures From([], p) == []
  {
  }

  lemma FromOne(x: Origin, p: Path)
    ensures From([x], p) == if x.file == p then [x] else []
  {
    assert [x][1..] == [];
    FromNone(p);
  }

  lemma {:induction false} KeptHas(t: Tree, f: Path, i: nat, j: nat)
    requires f in t.files && i <= |t.files[f]| && j < |t.files[f]|
    ensures Origin(f, j + 1) in Kept(t, f, i)
            <==> i <= j && (t.imports(f, t.files[f][j]) == None || t.imports(f, t.files[f][j]).value !in t.files)
    decreases |t.files[f]| - i
  {
    if i < |t.files[f]| { KeptHas(t, f, i + 1, j); }
  }

  lemma {:induction false} FromHas(o: seq<Origin>, p: Path, x: Origin)
    requires x.file == p
    ensures x in From(o, p) <==> x in o
  {
    if o != [] {
      FromHas(o[1..], p, x);
      assert o == [o[0]] + o[1..];
    }
  }

  /** A line of a file that the entry point reaches is written if and only if it is no import, or names a file that
      does not exist. */
  lemma LineWritten(t: Tree, entry: Path, f: Path, i: nat)
    requires Reaches(t, entry, f) && f in t.files && i < |t.files[f]|
    ensures Origin(f, i + 1) in Flat(t, entry, {}).1
            <==> t.imports(f, t.files[f][i]) == None || t.imports(f, t.files[f][i]).value !in t.files
  {
    hide Flat, From, Kept, Reaches;
    SeenExactly(t, entry, f);
    WrittenOnce(t, entry, {}, f);
    FromHas(Flat(t, entry, {}).1, f, Origin(f, i + 1));
    KeptHas(t, f, 0, i);
  }

  /** What is visited exists, but for the entry point, which may be missing. */
  lemma VisitedExist(t: Tree, entry: Path, q: Path)
    requires q in Flat(t, entry, {}).0
    ensures q == entry || q in t.files
  {
    hide Flat, Imports;
    SeenExactly(t, entry, q);
    var c :| Chain(t, c) && c[0] == entry && c[|c| - 1] == q;
    if |c| > 1 {
      assert Imports(t, c[|c| - 2], c[|c| - 2 + 1]);
      ImportsExist(t, c[|c| - 2], q);
    }
  }

  lemma ImportsExist(t: Tree, f: Path, p: Path)
    requires Imports(t, f, p)
    ensures p in t.files
  {
  }

  /** A library import: the file that it names does not exist, so the line is written. */
  lemma LibraryExample()
    ensures var t := Tree(map["a" := [IMPORT_B]], (f, l) => if l == IMPORT_B then Some("b") else None);
            Flat(t, "a", {}).1 == [Origin("a", 1)]
  {
    var t := Tree(map["a" := [IMPORT_B]], (f, l) => if l == IMPORT_B then Some("b") else None);
    assert "b" !in t.files && t.files["a"][0] == IMPORT_B;
    LeftFewer(t, {}, {} + {"a"});
    assert FlatFrom(t, "a", 0 + 1, {} + {"a"}).1 == [];
  }

  // ---------- Imports come first ----------

  /** Every line of `p` stands before every line of `f` beyond line `n`. */
  ghost predicate Before(o: seq<Origin>, p: Path, f: Path, n: nat) {
    forall a, b :: 0 <= a < |o| && 0 <= b < |o| && o[a].file == p && o[b].file == f && o[b].line > n ==> a < b
  }

  ghost predicate NoneOf(o: seq<Origin>, p: Path) {
    forall a :: 0 <= a < |o| ==> o[a].file != p
  }

  ghost predicate NoneBeyond(o: seq<Origin>, f: Path, n: nat) {
    forall b :: 0 <= b < |o| && o[b].file == f ==> o[b].line <= n
  }

  lemma {:induction false} FromNothing(o: seq<Origin>, p: Path)
    requires From(o, p) == []
    ensures NoneOf(o, p)
  {
    if o != [] {
      FromNothing(o[1..], p);
      forall a | 0 <= a < |o| ensures o[a].file != p { if a > 0 { assert o[a] == o[1..][a - 1]; } }
    }
  }

  lemma BeforeConcat(x: seq<Origin>, y: seq<Origin>, p: Path, f: Path, n: nat)
    requires Before(x, p, f, n) && Before(y, p, f, n) && (NoneBeyond(x, f, n) || NoneOf(y, p))
    ensures Before(x + y, p, f, n)
  {
    var o := x + y;
    forall a, b | 0 <= a < |o| && 0 <= b < |o| && o[a].file == p && o[b].file == f && o[b].line > n ensures a < b {
      assert (if a < |x| then x[a] else y[a - |x|]) == o[a];
      assert (if b < |x| then x[b] else y[b - |x|]) == o[b];
    }
  }

  /** Without lines of one of the two there is nothing to order. */
  lemma BeforeEasy(o: seq<Origin>, p: Path, f: Path, n: nat)
    requires NoneOf(o, p) || NoneBeyond(o, f, n)
    ensures Before(o, p, f, n)
  {
  }

  lemma NoneIsBeyond(o: seq<Origin>, f: Path, n: nat)
    requires NoneOf(o, f)
    ensures NoneBeyond(o, f, n)
  {
  }

  /** What the order is proved for: `f` imports `p` on its line `j`, and the import is not part of a cycle. */
  ghost predicate Straight(t: Tree, f: Path, j: nat, p: Path) {
    f in t.files && p in t.files && j < |t.files[f]| && t.imports(f, t.files[f][j]) == Some(p) && !Reaches(t, p, f)
  }

  lemma StraightIs(t: Tree, f: Path, j: nat, p: Path)
    requires Straight(t, f, j, p)
    ensures p != f && Imports(t, f, p) && Imported(t, f, j) == Some(p)
  {
    hide Reaches;
    ReachesSelf(t, f);
  }

  lemma {:induction false} OrderFlat(t: Tree, g: Path, seen: set<Path>, f: Path, j: nat, p: Path)
    requires Straight(t, f, j, p) && f in Flat(t, g, seen).0 && f !in seen
    ensures Before(Flat(t, g, seen).1, p, f, j + 1)
    decreases Left(t, seen), 0
  {
    hide Before, Straight, Imported, Reaches;
    if g !in seen && g in t.files {
      LeftFewer(t, seen, seen + {g});
      if f == g {
        StraightFile(t, f, j, p);
        OrderOwn(t, f, 0, seen + {f}, j, p);
      } else {
        OrderFrom(t, g, 0, seen + {g}, f, j, p);
      }
    } else {
      StraightFile(t, f, j, p);
    }
  }

  lemma StraightFile(t: Tree, f: Path, j: nat, p: Path)
    requires Straight(t, f, j, p)
    ensures f in t.files && j < |t.files[f]|
  {
    hide Imported, Reaches;
  }

  /** The file's own lines: those beyond the import come after it. */
  lemma {:induction false} OrderOwn(t: Tree, f: Path, i: nat, seen: set<Path>, j: nat, p: Path)
    requires Straight(t, f, j, p) && f in seen && i <= j < |t.files[f]|
    ensures Before(FlatFrom(t, f, i, seen).1, p, f, j + 1)
    decreases j - i
  {
    hide Before, Imported, Reaches, NoneOf, NoneBeyond, From;
    StraightIs(t, f, j, p);
    var n := Imported(t, f, i);
    if n.None? {
      OrderOwn(t, f, i + 1, seen, j, p);
      HeadFirst(Origin(f, i + 1), p, f, j + 1);
      BeforeConcat([Origin(f, i + 1)], FlatFrom(t, f, i + 1, seen).1, p, f, j + 1);
    } else {
      var (s1, o1) := Flat(t, n.value, seen);
      var rest := FlatFrom(t, f, i + 1, s1).1;
      WrittenOnce(t, n.value, seen, f);
      FromNothing(o1, f);
      NoneIsBeyond(o1, f, j + 1);
      BeforeEasy(o1, p, f, j + 1);
      if i < j {
        OrderOwn(t, f, i + 1, s1, j, p);
      } else {
        NamedSeen(t, p, seen);
        WrittenFrom(t, f, i + 1, s1, p);
        FromNothing(rest, p);
        BeforeEasy(rest, p, f, j + 1);
      }
      BeforeConcat(o1, rest, p, f, j + 1);
    }
  }

  lemma NamedSeen(t: Tree, p: Path, seen: set<Path>)
    ensures p in Flat(t, p, seen).0
  {
    if p !in seen && p in t.files { LeftFewer(t, seen, seen + {p}); }
  }

  lemma HeadFirst(h: Origin, p: Path, f: Path, n: nat)
    requires h.file == f && h.line <= n
    ensures NoneBeyond([h], f, n) && Before([h], p, f, n)
  {
  }

  /** Below another file on the way. */
  lemma {:induction false} OrderFrom(t: Tree, h: Path, i: nat, seen: set<Path>, f: Path, j: nat, p: Path)
    requires Straight(t, f, j, p) && h in t.files && i <= |t.files[h]| && h in seen && h != f
    requires f in FlatFrom(t, h, i, seen).0 && f !in seen
    ensures Before(FlatFrom(t, h, i, seen).1, p, f, j + 1)
    decreases Left(t, seen), 1 + |t.files[h]| - i
  {
    hide Before, Imported, Reaches, NoneOf, NoneBeyond, From, Straight, Imports;
    StraightIs(t, f, j, p);
    OnTheWay(t, h, i, seen, f, j, p);
    var n := Imported(t, h, i);
    if n.None? {
      OrderFrom(t, h, i + 1, seen, f, j, p);
      OtherHead(Origin(h, i + 1), p, f, j + 1);
      BeforeConcat([Origin(h, i + 1)], FlatFrom(t, h, i + 1, seen).1, p, f, j + 1);
    } else {
      var (s1, o1) := Flat(t, n.value, seen);
      LeftFewer(t, seen, s1);
      var rest := FlatFrom(t, h, i + 1, s1).1;
      if f in s1 {
        OrderFlat(t, n.value, seen, f, j, p);
        SeenClosed(t, n.value, seen, f, p);
        WrittenFrom(t, h, i + 1, s1, p);
        FromNothing(rest, p);
        BeforeEasy(rest, p, f, j + 1);
      } else {
        WrittenOnce(t, n.value, seen, f);
        FromNothing(o1, f);
        NoneIsBeyond(o1, f, j + 1);
        BeforeEasy(o1, p, f, j + 1);
        OrderFrom(t, h, i + 1, s1, f, j, p);
      }
      BeforeConcat(o1, rest, p, f, j + 1);
    }
  }

  /** A file on the way to `f` is not the one that `f` imports. */
  lemma OnTheWay(t: Tree, h: Path, i: nat, seen: set<Path>, f: Path, j: nat, p: Path)
    requires Straight(t, f, j, p) && h in t.files && i <= |t.files[h]| && f in FlatFrom(t, h, i, seen).0 && f !in seen
    ensures h != p
  {
    hide Imported, Reaches;
    SeenReachedFrom(t, h, i, seen, f);
  }

  lemma OtherHead(h: Origin, p: Path, f: Path, n: nat)
    requires h.file != f
    ensures NoneBeyond([h], f, n) && Before([h], p, f, n)
  {
  }

  /** In the flattened program an imported file stands before everything that follows its import, unless
      the import is part of a cycle. */
  lemma ImportsFirst(t: Tree, entry: Path, f: Path, j: nat, p: Path)
    requires Reaches(t, entry, f) && Straight(t, f, j, p)
    ensures Before(Flat(t, entry, {}).1, p, f, j + 1)
  {
    hide Before, Straight, Reaches;
    SeenExactly(t, entry, f);
    OrderFlat(t, entry, {}, f, j, p);
  }

  // ---------- Imports stand where they are named ----------

  /** Line `j` of `f` is where the lines of `p` stand: behind the lines of `f` in front of it, before those that follow. */
  ghost predicate InPlace(o: seq<Origin>, f: Path, j: nat, p: Path) {
    forall a, b :: 0 <= a < |o| && 0 <= b < |o| && o[a].file == f && o[b].file == p ==>
      (o[a].line <= j ==> a < b) && (o[a].line > j + 1 ==> b < a)
  }

  /** Only lines of `f` behind its line `j`. */
  ghost predicate OnlyBeyond(o: seq<Origin>, f: Path, j: nat) {
    forall a :: 0 <= a < |o| && o[a].file == f ==> o[a].line > j + 1
  }

  /** A line of `f` in front of the import, or of another file, changes nothing. */
  lemma InPlaceHead(h: Origin, rest: seq<Origin>, f: Path, j: nat, p: Path)
    requires InPlace(rest, f, j, p) && h.file != p && (h.file == f ==> h.line <= j)
    ensures InPlace([h] + rest, f, j, p)
  {
    var o := [h] + rest;
    forall a, b | 0 <= a < |o| && 0 <= b < |o| && o[a].file == f && o[b].file == p
      ensures (o[a].line <= j ==> a < b) && (o[a].line > j + 1 ==> b < a)
    {
      assert b > 0 && o[b] == rest[b - 1];
      if a > 0 { assert o[a] == rest[a - 1]; }
    }
  }

  /** Lines of neither file in front or behind change nothing. */
  lemma InPlaceAmong(x: seq<Origin>, y: seq<Origin>, z: seq<Origin>, f: Path, j: nat, p: Path)
    requires InPlace(y, f, j, p) && NoneOf(x, p) && NoneOf(x, f) && NoneOf(z, p) && NoneOf(z, f)
    ensures InPlace(x + y + z, f, j, p)
  {
    var o := x + y + z;
    forall a, b | 0 <= a < |o| && 0 <= b < |o| && o[a].file == f && o[b].file == p
      ensures (o[a].line <= j ==> a < b) && (o[a].line > j + 1 ==> b < a)
    {
      OneOf(x, y, z, a);
      OneOf(x, y, z, b);
    }
  }

  lemma OneOf(x: seq<Origin>, y: seq<Origin>, z: seq<Origin>, a: nat)
    requires a < |x + y + z|
    ensures (x + y + z)[a] == if a < |x| then x[a] else if a < |x| + |y| then y[a - |x|] else z[a - |x| - |y|]
  {
  }

  /** Where the import itself is met. */
  lemma InPlaceHere(x: seq<Origin>, y: seq<Origin>, f: Path, j: nat, p: Path)
    requires NoneOf(x, f) && NoneOf(y, p) && OnlyBeyond(y, f, j)
    ensures InPlace(x + y, f, j, p)
  {
    var o := x + y;
    assert o + [] == o;
    forall a, b | 0 <= a < |o| && 0 <= b < |o| && o[a].file == f && o[b].file == p
      ensures (o[a].line <= j ==> a < b) && (o[a].line > j + 1 ==> b < a)
    {
      OneOf(x, y, [], a);
      OneOf(x, y, [], b);
    }
  }

  lemma {:induction false} KeptBeyond(t: Tree, f: Path, i: nat, o: seq<Origin>)
    requires f in t.files && i < |t.files[f]| && From(o, f) == Kept(t, f, i + 1)
    ensures OnlyBeyond(o, f, i)
  {
    hide Kept, From;
    forall a | 0 <= a < |o| && o[a].file == f ensures o[a].line > i + 1 {
      FromHas(o, f, o[a]);
      KeptLines(t, f, i + 1, o[a]);
    }
  }

  lemma {:induction false} KeptLines(t: Tree, f: Path, i: nat, x: Origin)
    requires f in t.files && i <= |t.files[f]| && x in Kept(t, f, i)
    ensures x.line > i
    decreases |t.files[f]| - i
  {
    if i < |t.files[f]| && x in Kept(t, f, i + 1) { KeptLines(t, f, i + 1, x); }
  }

  /** The line that a file newly seen owes its place to. */
  lemma {:induction false} PlaceOf(t: Tree, g: Path, seen: set<Path>, p: Path) returns (f: Path, j: nat)
    requires p in Flat(t, g, seen).0 && p !in seen && p != g
    ensures f in Flat(t, g, seen).0 && f !in seen && f != p && Names(t, f, j, p) && InPlace(Flat(t, g, seen).1, f, j, p)
    decreases Left(t, seen), 0
  {
    hide Names, InPlace;
    LeftFewer(t, seen, seen + {g});
    f, j := PlaceFrom(t, g, 0, seen + {g}, p);
  }

  ghost predicate Names(t: Tree, f: Path, j: nat, p: Path) {
    f in t.files && j < |t.files[f]| && t.imports(f, t.files[f][j]) == Some(p)
  }

  lemma {:induction false} PlaceFrom(t: Tree, h: Path, i: nat, seen: set<Path>, p: Path) returns (f: Path, j: nat)
    requires h in t.files && i <= |t.files[h]| && h in seen && p in FlatFrom(t, h, i, seen).0 && p !in seen
    ensures if f == h then i <= j else f in FlatFrom(t, h, i, seen).0 && f !in seen
    ensures f != p && Names(t, f, j, p) && InPlace(FlatFrom(t, h, i, seen).1, f, j, p)
    decreases Left(t, seen), 1 + |t.files[h]| - i
  {
    hide InPlace, NoneOf, From, Kept, OnlyBeyond;
    var n := Imported(t, h, i);
    if n.None? {
      f, j := PlaceFrom(t, h, i + 1, seen, p);
      InPlaceHead(Origin(h, i + 1), FlatFrom(t, h, i + 1, seen).1, f, j, p);
    } else {
      var (s1, o1) := Flat(t, n.value, seen);
      LeftFewer(t, seen, s1);
      var rest := FlatFrom(t, h, i + 1, s1).1;
      WrittenOnce(t, n.value, seen, h);
      FromNothing(o1, h);
      WrittenFrom(t, h, i + 1, s1, p);
      if p !in s1 {
        f, j := PlaceFrom(t, h, i + 1, s1, p);
        WrittenOnce(t, n.value, seen, p);
        FromNothing(o1, p);
        WrittenOnce(t, n.value, seen, f);
        FromNothing(o1, f);
        InPlaceBehind(o1, rest, f, j, p);
      } else {
        FromNothing(rest, p);
        if p == n.value {
          f, j := h, i;
          WrittenFrom(t, h, i + 1, s1, h);
          KeptBeyond(t, h, i, rest);
          InPlaceHere(o1, rest, f, j, p);
        } else {
          f, j := PlaceOf(t, n.value, seen, p);
          WrittenFrom(t, h, i + 1, s1, f);
          FromNothing(rest, f);
          InPlaceBefore(o1, rest, f, j, p);
        }
      }
    }
  }

  lemma InPlaceBehind(x: seq<Origin>, y: seq<Origin>, f: Path, j: nat, p: Path)
    requires InPlace(y, f, j, p) && NoneOf(x, p) && NoneOf(x, f)
    ensures InPlace(x + y, f, j, p)
  {
    hide InPlace;
    InPlaceAmong(x, y, [], f, j, p);
    assert x + y + [] == x + y;
  }

  lemma InPlaceBefore(y: seq<Origin>, z: seq<Origin>, f: Path, j: nat, p: Path)
    requires InPlace(y, f, j, p) && NoneOf(z, p) && NoneOf(z, f)
    ensures InPlace(y + z, f, j, p)
  {
    hide InPlace;
    InPlaceAmong([], y, z, f, j, p);
    assert [] + y + z == y + z;
  }

  /** Every visited file but the entry point stands where one visited file names it: behind the lines of that file in
      front of the import and before those that follow, also in cycles. */
  lemma WrittenInPlace(t: Tree, entry: Path, p: Path)
    requires p in Flat(t, entry, {}).0 && p != entry
    ensures exists f, j :: f in Flat(t, entry, {}).0 && f != p && Names(t, f, j, p) && InPlace(Flat(t, entry, {}).1, f, j, p)
  {
    hide Flat, Names, InPlace;
    var f, j := PlaceOf(t, entry, {}, p);
  }

  // ---------- The program ----------

  class Flattener {
    const tree: Tree
    var visited: set<Path>
    var lines: seq<Line>
    var lineMap: map<nat, Origin>
    var currentLine: nat
    ghost var origins: seq<Origin>

    /** The line map names, under the number of each line written, the place that the line came from. */
    ghost predicate Valid()
      reads this
    {
      && |lines| == |origins| && currentLine == |lines| + 1
      && (forall k :: k in lineMap <==> 1 <= k <= |lines|)
      && (forall k :: 0 <= k < |lines| ==> lineMap[k + 1] == origins[k] && IsLine(origins[k], lines[k]))
    }

    ghost predicate IsLine(o: Origin, line: Line) {
      o.file in tree.files && 1 <= o.line <= |tree.files[o.file]| && tree.files[o.file][o.line - 1] == line
    }

    constructor (tree: Tree)
      ensures Valid() && this.tree == tree && visited == {} && origins == []
    {
      this.tree, visited, lines, lineMap, currentLine, origins := tree, {}, [], map[], 1, [];
    }

    /** A line is written as it is. */
    method Keep(f: Path, i: nat)
      requires Valid() && f in tree.files && i < |tree.files[f]|
      modifies this`lines, this`lineMap, this`currentLine, this`origins
      ensures Valid() && origins == old(origins) + [Origin(f, i + 1)]
    {
      lines := lines + [tree.files[f][i]];
      lineMap := lineMap[currentLine := Origin(f, i + 1)];
      currentLine := currentLine + 1;
      origins := origins + [Origin(f, i + 1)];
    }

    /** A file seen before is passed over; otherwise its lines are written, each import in place. */
    method ProcessFile(f: Path)
      requires Valid()
      modifies this
      ensures Valid() && (visited, origins) == (Flat(tree, f, old(visited)).0, old(origins) + Flat(tree, f, old(visited)).1)
      decreases Left(tree, visited), 0
    {
      if f in visited {
        assert origins == origins + [];
        return;
      }
      LeftFewer(tree, visited, visited + {f});
      visited := visited + {f};
      if f !in tree.files {
        assert origins == origins + [];
        return;
      }
      ProcessLines(f);
    }

    method ProcessLines(f: Path)
      requires Valid() && f in tree.files
      modifies this
      ensures Valid() && (visited, origins) == (FlatFrom(tree, f, 0, old(visited)).0, old(origins) + FlatFrom(tree, f, 0, old(visited)).1)
      decreases Left(tree, visited), 1
    {
      hide Flat;
      ghost var all := FlatFrom(tree, f, 0, visited);
      var i := 0;
      while i < |tree.files[f]|
        invariant Valid() && 0 <= i <= |tree.files[f]| && old(visited) <= visited
        invariant FlatFrom(tree, f, i, visited).0 == all.0
        invariant origins + FlatFrom(tree, f, i, visited).1 == old(origins) + all.1
      {
        ghost var seen, sofar := visited, origins;
        var target := Imported(tree, f, i);
        if target.None? {
          Keep(f, i);
          assert sofar + ([Origin(f, i + 1)] + FlatFrom(tree, f, i + 1, seen).1) == sofar + [Origin(f, i + 1)] + FlatFrom(tree, f, i + 1, seen).1;
        } else {
          LeftFewer(tree, old(visited), visited);
          ProcessFile(target.value);
          assert sofar + (Flat(tree, target.value, seen).1 + FlatFrom(tree, f, i + 1, visited).1)
              == sofar + Flat(tree, target.value, seen).1 + FlatFrom(tree, f, i + 1, visited).1;
        }
        i := i + 1;
      }
      assert origins + [] == origins;
    }

    /** The text written: one fixed line, then the lines as they are. Number `k` of the map names line `k + 1`
        of this text, for all numbers, exactly when every line written but the last ends in a newline. */
    method Output() returns (text: string)
      requires Valid() && FilesOK(tree)
      ensures text == "use \"unsafe.npk\".*;\n" + Text(lines)
      ensures AllNumbered(text) <==> AllButLastEnd(lines)
    {
      hide AllNumbered, Lines, Text, OneLine, Valid, FilesOK, AllOneLine;
      text := HEADER + Text(lines);
      ghost var all := [HEADER] + lines;
      HeaderText(lines);
      LinesWhole();
      HeaderEnds();
      AllEnds(HEADER, lines);
      ReadBack(all);
      HeaderRead(lines);
      NumbersAll(text, all);
    }

    /** Number `k` of the map names line `k + 1` of the text: the line at that place is the one it came from. */
    ghost predicate AllNumbered(text: string)
      reads this
    {
      forall k :: k in lineMap ==> k < |Lines(text)| && IsLine(lineMap[k], Lines(text)[k])
    }

    lemma LinesWhole()
      requires Valid() && FilesOK(tree)
      ensures AllOneLine([HEADER] + lines)
    {
      HeaderEnds();
      var all := [HEADER] + lines;
      forall i | 0 <= i < |all| ensures OneLine(all[i]) {
        if i > 0 { assert lineMap[i - 1 + 1] == origins[i - 1] && IsLine(origins[i - 1], lines[i - 1]) && all[i] == lines[i - 1]; }
      }
    }

    lemma NumbersAll(text: string, all: seq<Line>)
      requires Valid() && all == [HEADER] + lines && Lines(text) != [] && Lines(text)[0] == all[0]
      ensures AllNumbered(text) <==> all <= Lines(text)
    {
      hide Lines, Valid, IsLine;
      var ls := Lines(text);
      Numbers();
      if AllNumbered(text) {
        forall i | 0 <= i < |all| ensures Same(all, ls, i) {
          if i > 0 {
            assert i in lineMap;
            NumberNames(i, ls[i]);
          }
        }
        PrefixIs(all, ls);
      }
      if all <= ls {
        forall k | k in lineMap ensures k < |ls| && IsLine(lineMap[k], ls[k]) { NumberNames(k, ls[k]); }
      }
    }

    lemma Numbers()
      requires Valid()
      ensures forall k :: k in lineMap <==> 1 <= k <= |lines|
    {
    }

    lemma NumberNames(k: nat, l: Line)
      requires Valid() && k in lineMap
      ensures 1 <= k <= |lines| && (IsLine(lineMap[k], l) <==> l == lines[k - 1])
    {
      assert lineMap[k - 1 + 1] == origins[k - 1] && IsLine(origins[k - 1], lines[k - 1]);
    }
  }

  ghost predicate Same(a: seq<Line>, b: seq<Line>, i: nat) {
    i < |a| && i < |b| && a[i] == b[i]
  }

  lemma PrefixIs(a: seq<Line>, b: seq<Line>)
    requires forall i :: 0 <= i < |a| ==> Same(a, b, i)
    ensures a <= b
  {
    if a != [] { assert Same(a, b, |a| - 1); }
    forall i | 0 <= i < |a| ensures a[i] == b[..|a|][i] { assert Same(a, b, i); }
    assert a == b[..|a|];
  }

  lemma HeaderText(ls: seq<Line>)
    ensures Text([HEADER] + ls) == HEADER + Text(ls)
  {
    assert ([HEADER] + ls)[1..] == ls;
  }

  lemma AllEnds(h: Line, ls: seq<Line>)
    requires Ends(h)
    ensures AllButLastEnd([h] + ls) <==> AllButLastEnd(ls)
  {
    hide Ends;
    var all := [h] + ls;
    if AllButLastEnd(ls) {
      forall i | 0 <= i < |all| - 1 ensures Ends(all[i]) { if i > 0 { assert Ends(ls[i - 1]); } }
    }
    if AllButLastEnd(all) {
      forall i | 0 <= i < |ls| - 1 ensures Ends(ls[i]) { assert Ends(all[i + 1]); }
    }
  }

  /** The line in front of the program. */
  const HEADER := "use \"unsafe.npk\".*;\n"

  lemma HeaderEnds()
    ensures OneLine(HEADER) && Ends(HEADER)
  {
  }

  lemma HeaderRead(ls: seq<Line>)
    ensures Lines(Text([HEADER] + ls)) != [] && Lines(Text([HEADER] + ls))[0] == HEADER
  {
    HeaderEnds();
    assert ([HEADER] + ls)[1..] == ls;
    FirstLine(HEADER, Text(ls));
    assert (HEADER + Text(ls))[..|HEADER|] == HEADER;
  }

  /** The files hold lines as reading a text gives them. */
  ghost predicate FilesOK(t: Tree) {
    forall f :: f in t.files ==> AllOneLine(t.files[f]) && AllButLastEnd(t.files[f])
  }

  const IMPORT_B := "use \"b\".*;\n"

  /** An imported file without a newline at its end: its last line and the next line written become one. */
  lemma GluedExample()
    ensures var t := Tree(map["a" := [IMPORT_B, "x\n"], "b" := ["y"]], (f, l) => if l == IMPORT_B then Some("b") else None);
            FilesOK(t) && Flat(t, "a", {}).1 == [Origin("b", 1), Origin("a", 2)]
    ensures Lines(Text([HEADER, "y", "x\n"])) == [HEADER, "yx\n"]
  {
    var t := Tree(map["a" := [IMPORT_B, "x\n"], "b" := ["y"]], (f, l) => if l == IMPORT_B then Some("b") else None);
    assert t.files["a"][0] == IMPORT_B && t.files["a"][1] == "x\n" && t.files["b"][0] == "y";
    GluedFlat(t, "a", "b");
    GluedText();
  }

  lemma GluedFlat(t: Tree, a: Path, b: Path)
    requires a != b && a in t.files && b in t.files && |t.files[a]| == 2 && |t.files[b]| == 1
    requires Imported(t, a, 0) == Some(b) && Imported(t, a, 1) == None && Imported(t, b, 0) == None
    ensures Flat(t, a, {}).1 == [Origin(b, 1), Origin(a, 2)]
  {
    hide Imported;
    var s1: set<Path>, s2: set<Path> := {a}, {a} + {b};
    LeftFewer(t, {}, s1);
    LeftFewer(t, s1, s2);
    assert {} + {a} == s1;
    assert FlatFrom(t, b, 0, s2) == (s2, [Origin(b, 1)]) by {
      assert FlatFrom(t, b, 0 + 1, s2) == (s2, []) && [Origin(b, 1)] + [] == [Origin(b, 1)];
    }
    assert Flat(t, b, s1) == (s2, [Origin(b, 1)]);
    assert FlatFrom(t, a, 1, s2) == (s2, [Origin(a, 2)]) by {
      assert FlatFrom(t, a, 1 + 1, s2) == (s2, []) && [Origin(a, 2)] + [] == [Origin(a, 2)];
    }
    assert FlatFrom(t, a, 0, s1).1 == [Origin(b, 1)] + [Origin(a, 2)] by { assert FlatFrom(t, a, 0 + 1, s2) == (s2, [Origin(a, 2)]); }
  }

  lemma GluedText()
    ensures Lines(Text([HEADER, "y", "x\n"])) == [HEADER, "yx\n"]
  {
    hide Lines, LineEnd;
    var ls := ["yx\n"];
    HeaderEnds();
    assert Text([]) == "" && ["x\n"][1..] == [] && ["y", "x\n"][1..] == ["x\n"] && [HEADER, "y", "x\n"][1..] == ["y", "x\n"];
    assert Text(["x\n"]) == "x\n" && Text(["y", "x\n"]) == "y" + "x\n" == "yx\n";
    assert ls[1..] == [] && [HEADER, "yx\n"][1..] == ls;
    assert Text(ls) == "yx\n";
    assert OneLine("yx\n");
    assert forall i :: 0 <= i < 2 ==> OneLine([HEADER, "yx\n"][i]);
    ReadBack([HEADER, "yx\n"]);
  }
}
