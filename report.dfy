/** The pure logic around a comparison: the line-correspondence tables `compare` builds from
    the two line maps, the final ordering of the diffs by left line, and the per-kind counts
    of the report. */
module Report {
  import opened Wrappers
  import opened JsonValues
  import opened Paths
  import opened RenderLines

  // ---------------------------------------------------------------------------------------
  // Line-correspondence tables (jdd.js:1090-1122).

  /** `findLineBasedOnPath` (jdd.js:1090-1096): the line of the first record of `p`, or
      `undefined`. */
  function LineOf(m: seq<PathEntry>, p: string): Option<int> {
    match FindEntry(m, p)
    case None => None
    case Some(e) => Some(e.line)
  }

  method FindLineBasedOnPath(m: seq<PathEntry>, p: string) returns (r: Option<int>)
    ensures r == LineOf(m, p)
  {
    var i := 0;
    while i < |m|
      invariant 0 <= i <= |m|
      invariant FindEntry(m[i..], p) == FindEntry(m, p)
    {
      if m[i].path == p {
        return Some(m[i].line);
      }
      assert m[i..][1..] == m[i + 1..];
      i := i + 1;
    }
    return None;
  }

  /** `parityLinesColumnsLeftRight` after the first `n` left records: each left line maps to
      the right line of the same path, `undefined` when the right document lacks it. */
  function LeftRight(m1: seq<PathEntry>, m2: seq<PathEntry>, n: nat): map<int, Option<int>>
    requires n <= |m1|
  {
    if n == 0 then map[]
    else LeftRight(m1, m2, n - 1)[m1[n - 1].line := LineOf(m2, m1[n - 1].path)]
  }

  /** `parityLinesColumnsRightLeft` after the first `n` left records: each right line found
      maps back to the left line of the last record that found it. */
  function RightLeft(m1: seq<PathEntry>, m2: seq<PathEntry>, n: nat): map<Option<int>, int>
    requires n <= |m1|
  {
    if n == 0 then map[]
    else RightLeft(m1, m2, n - 1)[LineOf(m2, m1[n - 1].path) := m1[n - 1].line]
  }

  /** The loop of jdd.js:1118-1122. */
  method ParityTables(m1: seq<PathEntry>, m2: seq<PathEntry>) returns (lr: map<int, Option<int>>, rl: map<Option<int>, int>)
    ensures lr == LeftRight(m1, m2, |m1|) && rl == RightLeft(m1, m2, |m1|)
  {
    lr, rl := map[], map[];
    var i := 0;
    while i < |m1|
      invariant 0 <= i <= |m1|
      invariant lr == LeftRight(m1, m2, i) && rl == RightLeft(m1, m2, i)
    {
      var c2Line := FindLineBasedOnPath(m2, m1[i].path);
      lr := lr[m1[i].line := c2Line];
      rl := rl[c2Line := m1[i].line];
      i := i + 1;
    }
  }

  /** With strictly increasing left lines (as every printed document has), the left-right
      table has exactly the left lines as keys, and each maps to the right line of its path. */
  lemma {:induction false} LeftRightSpec(m1: seq<PathEntry>, m2: seq<PathEntry>, n: nat)
    requires n <= |m1| && Ascending(m1)
    ensures forall L :: L in LeftRight(m1, m2, n) <==> exists i :: 0 <= i < n && m1[i].line == L
    ensures forall i :: 0 <= i < n ==> LeftRight(m1, m2, n)[m1[i].line] == LineOf(m2, m1[i].path)
  {
    if n > 0 {
      LeftRightSpec(m1, m2, n - 1);
      forall i | 0 <= i < n - 1
        ensures m1[i].line != m1[n - 1].line
      {
        RecordsStrictlyIncreasing(m1, i, n - 1);
      }
    }
  }

  /** The two tables undo each other: every right line the right-left table knows leads back
      through the left-right table to itself, and every value of the right-left table is a
      left line. */
  lemma {:induction false} ParityRoundTrip(m1: seq<PathEntry>, m2: seq<PathEntry>, n: nat)
    requires n <= |m1| && Ascending(m1)
    ensures forall c :: c in RightLeft(m1, m2, n) ==>
      RightLeft(m1, m2, n)[c] in LeftRight(m1, m2, n) &&
      LeftRight(m1, m2, n)[RightLeft(m1, m2, n)[c]] == c
    ensures forall c :: c in RightLeft(m1, m2, n) ==>
      exists i :: 0 <= i < n && m1[i].line == RightLeft(m1, m2, n)[c]
  {
    if n > 0 {
      ParityRoundTrip(m1, m2, n - 1);
      var L := m1[n - 1].line;
      var rl := RightLeft(m1, m2, n - 1);
      forall c | c in rl
        ensures rl[c] != L
      {
        var i :| 0 <= i < n - 1 && m1[i].line == rl[c];
        RecordsStrictlyIncreasing(m1, i, n - 1);
      }
    }
  }

  // ---------------------------------------------------------------------------------------
  // Ordering by left line (jdd.js:824-826).

  /** A diff's left line. */
  function LeftLine(d: Diff): int {
    d.path1.line
  }

  predicate LineSorted(ds: seq<Diff>) {
    forall i, j :: 0 <= i < j < |ds| ==> LeftLine(ds[i]) <= LeftLine(ds[j])
  }

  /** Inserts `d` before the first diff of a later or equal line. */
  function InsertByLine(d: Diff, s: seq<Diff>): (r: seq<Diff>)
    ensures multiset(r) == multiset(s) + multiset{d}
  {
    if s == [] || LeftLine(d) <= LeftLine(s[0]) then [d] + s
    else
      assert s == [s[0]] + s[1..];
      [s[0]] + InsertByLine(d, s[1..])
  }

  lemma {:induction false} InsertByLineSorted(d: Diff, s: seq<Diff>)
    requires LineSorted(s)
    ensures LineSorted(InsertByLine(d, s))
  {
    if s != [] && LeftLine(s[0]) < LeftLine(d) {
      InsertByLineSorted(d, s[1..]);
      var t := InsertByLine(d, s[1..]);
      forall k | 0 <= k < |t|
        ensures LeftLine(s[0]) <= LeftLine(t[k])
      {
        assert t[k] in multiset(t);
        if t[k] != d {
          assert t[k] in multiset(s[1..]);
          var j :| 0 <= j < |s[1..]| && s[1..][j] == t[k];
          assert s[j + 1] == t[k];
        }
      }
      var r := [s[0]] + t;
      forall i, j | 0 <= i < j < |r|
        ensures LeftLine(r[i]) <= LeftLine(r[j])
      {
        if i > 0 {
          assert r[i] == t[i - 1] && r[j] == t[j - 1];
        }
      }
    }
  }

  /** `jdd.diffs.sort((a, b) => a.path1.line - b.path1.line)`: the stable sort by left line. */
  function SortByLine(ds: seq<Diff>): seq<Diff> {
    if ds == [] then [] else InsertByLine(ds[0], SortByLine(ds[1..]))
  }

  /** The sorted diffs are in left-line order and are the same diffs. */
  lemma {:induction false} SortByLineSpec(ds: seq<Diff>)
    ensures LineSorted(SortByLine(ds)) && multiset(SortByLine(ds)) == multiset(ds)
  {
    if ds != [] {
      SortByLineSpec(ds[1..]);
      InsertByLineSorted(ds[0], SortByLine(ds[1..]));
      assert ds == [ds[0]] + ds[1..];
    }
  }

  /** The diffs of one left line, in order. */
  function OnLine(ds: seq<Diff>, line: int): seq<Diff> {
    if ds == [] then []
    else (if LeftLine(ds[0]) == line then [ds[0]] else []) + OnLine(ds[1..], line)
  }

  lemma OnLineCons(x: Diff, t: seq<Diff>, line: int)
    ensures OnLine([x] + t, line) == (if LeftLine(x) == line then [x] else []) + OnLine(t, line)
  {
    assert ([x] + t)[1..] == t;
  }

  lemma {:induction false} InsertByLineStable(d: Diff, s: seq<Diff>, line: int)
    ensures OnLine(InsertByLine(d, s), line) == (if LeftLine(d) == line then [d] else []) + OnLine(s, line)
  {
    if s != [] && LeftLine(s[0]) < LeftLine(d) {
      InsertByLineStable(d, s[1..], line);
      OnLineCons(s[0], InsertByLine(d, s[1..]), line);
      OnLineCons(s[0], s[1..], line);
      assert s == [s[0]] + s[1..];
      assert LeftLine(d) == line ==> LeftLine(s[0]) != line;
    } else {
      OnLineCons(d, s, line);
    }
  }

  /** The sort is stable: the diffs of each left line keep the order `diffVal` found them in. */
  lemma {:induction false} SortByLineStable(ds: seq<Diff>, line: int)
    ensures OnLine(SortByLine(ds), line) == OnLine(ds, line)
  {
    if ds != [] {
      SortByLineStable(ds[1..], line);
      InsertByLineStable(ds[0], SortByLine(ds[1..]), line);
    }
  }

  // ---------------------------------------------------------------------------------------
  // Per-kind counts (jdd.js:903-914).

  function Count(ds: seq<Diff>, k: DiffKind): nat {
    if ds == [] then 0 else (if ds[0].kind == k then 1 else 0) + Count(ds[1..], k)
  }

  lemma {:induction false} CountAppend(ds: seq<Diff>, d: Diff, k: DiffKind)
    ensures Count(ds + [d], k) == Count(ds, k) + (if d.kind == k then 1 else 0)
  {
    if ds != [] {
      assert (ds + [d])[1..] == ds[1..] + [d];
      CountAppend(ds[1..], d, k);
    }
  }

  /** The counting loop: TYPE, EQUALITY and MISSING counts. */
  method CountKinds(ds: seq<Diff>) returns (typeCount: nat, eqCount: nat, missingCount: nat)
    ensures typeCount == Count(ds, TypeMismatch) && eqCount == Count(ds, Equality) && missingCount == Count(ds, Missing)
  {
    typeCount, eqCount, missingCount := 0, 0, 0;
    var i := 0;
    while i < |ds|
      invariant 0 <= i <= |ds|
      invariant typeCount == Count(ds[..i], TypeMismatch)
      invariant eqCount == Count(ds[..i], Equality)
      invariant missingCount == Count(ds[..i], Missing)
    {
      assert ds[..i + 1] == ds[..i] + [ds[i]];
      CountAppend(ds[..i], ds[i], TypeMismatch);
      CountAppend(ds[..i], ds[i], Equality);
      CountAppend(ds[..i], ds[i], Missing);
      if ds[i].kind == Equality {
        eqCount := eqCount + 1;
      } else if ds[i].kind == Missing {
        missingCount := missingCount + 1;
      } else if ds[i].kind == TypeMismatch {
        typeCount := typeCount + 1;
      }
      i := i + 1;
    }
    assert ds[..i] == ds;
  }

  /** Every diff has one of the three kinds, so the counts add up to the number of diffs. */
  lemma {:induction false} CountsTotal(ds: seq<Diff>)
    ensures Count(ds, TypeMismatch) + Count(ds, Equality) + Count(ds, Missing) == |ds|
  {
    if ds != [] {
      CountsTotal(ds[1..]);
    }
  }

  lemma {:induction false} CountInsert(d: Diff, s: seq<Diff>, k: DiffKind)
    ensures Count(InsertByLine(d, s), k) == Count(s, k) + (if d.kind == k then 1 else 0)
  {
    if s != [] && LeftLine(s[0]) < LeftLine(d) {
      CountInsert(d, s[1..], k);
      assert ([s[0]] + InsertByLine(d, s[1..]))[1..] == InsertByLine(d, s[1..]);
    }
  }

  /** Sorting does not change the counts. */
  lemma {:induction false} CountSorted(ds: seq<Diff>, k: DiffKind)
    ensures Count(SortByLine(ds), k) == Count(ds, k)
  {
    if ds != [] {
      CountSorted(ds[1..], k);
      CountInsert(ds[0], SortByLine(ds[1..]), k);
    }
  }
}
