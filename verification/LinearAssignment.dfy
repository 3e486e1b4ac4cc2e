/** The tracker's thresholded assignment: embedding, solving, and cutting back. */
module LinearAssignment {
  import opened Permutations
  import opened Assignment
  import opened Threshold
  import FullPath
  import Lapjv
  import opened Augmentation

  /** std::numeric_limits<float>::max() */
  const FLOAT_MAX: real := 340282346638528859811704183484516925440.0

  /** The price of leaving a row or a column out: half the limit, or more than any entry if there is no limit. */
  ghost predicate IsFill(cost: Matrix, r: nat, c: nat, limit: real, fill: real)
    requires Rectangular(cost, r, c)
  {
    if limit < FLOAT_MAX then fill == limit / 2.0
    else
      && (forall i, j :: 0 <= i < r && 0 <= j < c ==> cost[i][j] <= fill - 1.0)
      && (fill == 0.0 || (fill > 0.0 && exists i, j :: 0 <= i < r && 0 <= j < c && cost[i][j] == fill - 1.0))
  }

  method ChooseFill(cost: Matrix, r: nat, c: nat, limit: real) returns (fill: real)
    requires Rectangular(cost, r, c)
    ensures IsFill(cost, r, c, limit, fill)
  {
    if limit < FLOAT_MAX {
      return limit / 2.0;
    }
    var costMax := -1.0;
    for i := 0 to r
      invariant forall k, j :: 0 <= k < i && 0 <= j < c ==> cost[k][j] <= costMax
      invariant costMax == -1.0 || (costMax > -1.0 && exists k, j :: 0 <= k < r && 0 <= j < c && cost[k][j] == costMax)
    {
      for j := 0 to c
        invariant forall k, l :: 0 <= k < i && 0 <= l < c ==> cost[k][l] <= costMax
        invariant forall l :: 0 <= l < j ==> cost[i][l] <= costMax
        invariant
          || costMax == -1.0
          || (costMax > -1.0 && exists k, l :: 0 <= k < r && 0 <= l < c && cost[k][l] == costMax)
      {
        if cost[i][j] > costMax {
          costMax := cost[i][j];
        }
      }
    }
    fill := costMax + 1.0;
  }

  /** Lines 463 to 515 of BYTETracker.cpp: fill everywhere, zero between dummies, the given costs in the corner. */
  method Extend(cost: Matrix, r: nat, c: nat, limit: real) returns (ext: Matrix, fill: real)
    requires Rectangular(cost, r, c)
    ensures Extends(ext, cost, r, c, fill) && IsFill(cost, r, c, limit, fill)
  {
    var n := r + c;
    var f := ChooseFill(cost, r, c, limit);
    fill := f;
    var e := new real[n, n]((i, j) => f);
    for i := r to n
      invariant forall k, j :: 0 <= k < n && 0 <= j < n ==> e[k, j] == if r <= k < i && c <= j then 0.0 else f
    {
      for j := c to n
        invariant forall k, l :: 0 <= k < n && 0 <= l < n ==>
          e[k, l] == if (r <= k < i && c <= l) || (k == i && c <= l < j) then 0.0 else f
      {
        e[i, j] := 0.0;
      }
    }
    for i := 0 to r
      invariant forall k, j :: 0 <= k < n && 0 <= j < n ==>
        e[k, j] == if k < i && j < c then cost[k][j] else if r <= k && c <= j then 0.0 else f
    {
      for j := 0 to c
        invariant forall k, l :: 0 <= k < n && 0 <= l < n ==>
          e[k, l] == if (k < i && l < c) || (k == i && l < j) then cost[k][l] else if r <= k && c <= l then 0.0 else f
      {
        e[i, j] := cost[i][j];
      }
    }
    ext := seq(n, i requires 0 <= i < n reads e => seq(n, j requires 0 <= j < n reads e => e[i, j]));
  }

  /** rowsol and colsol describe the same matching from both sides. */
  ghost predicate BothSides(rowsol: seq<int>, colsol: seq<int>, r: nat, c: nat) {
    && Matching(rowsol, r, c) && |colsol| == c
    && (forall j :: 0 <= j < c ==> -1 <= colsol[j] < r)
    && (forall j :: 0 <= j < c ==> (colsol[j] >= 0 <==> j in rowsol))
    && (forall j :: 0 <= j < c && colsol[j] >= 0 ==> rowsol[colsol[j]] == j)
  }

  /** The sum of the costs of the kept pairs among the first `end` rows. */
  ghost function KeptCost(cost: Matrix, m: seq<int>, end: nat): real
    requires end <= |m| == |cost| && forall i :: 0 <= i < |m| ==> m[i] < |cost[i]|
  {
    if end == 0 then 0.0
    else KeptCost(cost, m, end - 1) + if m[end - 1] >= 0 then cost[end - 1][m[end - 1]] else 0.0
  }

  lemma {:induction false} CutBothSides(x: seq<int>, y: seq<int>, rowsol: seq<int>, colsol: seq<int>, r: nat, c: nat)
    requires MutuallyInverse(x, y, r + c)
    requires rowsol == Cut(x, r, c) && colsol == Cut(y, c, r)
    ensures BothSides(rowsol, colsol, r, c)
  {
    CutIsMatching(x, r, c);
    forall j | 0 <= j < c ensures colsol[j] >= 0 <==> j in rowsol {
      if y[j] < r {
        assert rowsol[y[j]] == j;
      }
      if j in rowsol {
        var i :| 0 <= i < r && rowsol[i] == j;
        assert y[x[i]] == i;
      }
    }
  }

  /** Lines 543 to 557 of BYTETracker.cpp: indices of dummies become -1, and only real rows and columns are reported. */
  method CutBack(n: nat, r: nat, c: nat, x: array<int>, y: array<int>) returns (rowsol: seq<int>, colsol: seq<int>)
    requires n == r + c && x.Length == y.Length == n && x != y
    modifies x, y
    ensures rowsol == Cut(old(x[..]), r, c) && colsol == Cut(old(y[..]), c, r)
  {
    ghost var xs, ys := x[..], y[..];
    for i := 0 to n
      invariant forall k :: 0 <= k < n ==> x[k] == if k < i && xs[k] >= c then -1 else xs[k]
      invariant forall k :: 0 <= k < n ==> y[k] == if k < i && ys[k] >= r then -1 else ys[k]
    {
      if x[i] >= c {
        x[i] := -1;
      }
      if y[i] >= r {
        y[i] := -1;
      }
    }
    rowsol, colsol := x[..r], y[..c];
  }

  lemma ExtendsIsSquare(ext: Matrix, cost: Matrix, r: nat, c: nat, fill: real)
    requires Extends(ext, cost, r, c, fill)
    ensures Square(ext, r + c)
  {
  }

  /** `execLapjv` with `extend_cost`, as the tracker calls it. */
  method ExecLapjv(cost: Matrix, r: nat, c: nat, limit: real)
    returns (outcome: Outcome, rowsol: seq<int>, colsol: seq<int>, opt: real, ghost ext: Matrix, ghost fill: real)
    requires r >= 1 && c >= 1 && Rectangular(cost, r, c)
    ensures Extends(ext, cost, r, c, fill) && IsFill(cost, r, c, limit, fill)
    ensures outcome.PathTooLong? <==> |Lapjv.Solved(ext, r + c).path| == r + c
    ensures outcome.Done? ==> BothSides(rowsol, colsol, r, c) && opt == KeptCost(cost, rowsol, r)
    ensures WithinSentinel(ext, r + c) ==> outcome.Done? && BestMatching(cost, rowsol, r, c, fill)
  {
    hide *;
    var n := r + c;
    var e: Matrix;
    e, fill := Extend(cost, r, c, limit);
    ext := e;
    ExtendsIsSquare(e, cost, r, c, fill);
    var x, y := new int[n], new int[n];
    rowsol, colsol, opt := [], [], 0.0;
    outcome := Lapjv.Solve(n, e, x, y);
    if WithinSentinel(ext, n) {
      FullPath.ExtendedNeverThrows(ext, cost, r, c, fill);
    }
    if outcome.PathTooLong? {
      return;
    }
    ghost var xs, ys := x[..], y[..];
    rowsol, colsol := CutBack(n, r, c, x, y);
    CutBothSides(xs, ys, rowsol, colsol, r, c);
    if WithinSentinel(ext, n) {
      CutIsBest(ext, cost, xs, r, c, fill);
    }
    opt := SumKept(cost, rowsol, colsol, r, c);
  }

  method SumKept(cost: Matrix, rowsol: seq<int>, ghost colsol: seq<int>, r: nat, c: nat) returns (opt: real)
    requires Rectangular(cost, r, c) && BothSides(rowsol, colsol, r, c)
    ensures opt == KeptCost(cost, rowsol, r)
  {
    opt := 0.0;
    for i := 0 to r
      invariant opt == KeptCost(cost, rowsol, i)
    {
      if rowsol[i] != -1 {
        opt := opt + cost[i][rowsol[i]];
      }
    }
  }

  // ----- linearAssignment: matches and the two unmatched lists -----

  datatype Assigned =
    | Assigned(matches: seq<(int, int)>, aUnmatched: seq<int>, bUnmatched: seq<int>)
    | Threw

  ghost function Firsts(s: seq<(int, int)>): (f: seq<int>)
    ensures |f| == |s| && forall k :: 0 <= k < |s| ==> f[k] == s[k].0
  {
    seq(|s|, k requires 0 <= k < |s| => s[k].0)
  }

  ghost function Seconds(s: seq<(int, int)>): (f: seq<int>)
    ensures |f| == |s| && forall k :: 0 <= k < |s| ==> f[k] == s[k].1
  {
    seq(|s|, k requires 0 <= k < |s| => s[k].1)
  }

  /** Each index of either side occurs exactly once, either in a match or among the unmatched; the lists are in
      ascending order, the matches by their first index. */
  ghost predicate Partitions(a: Assigned, r: nat, c: nat)
    requires a.Assigned?
  {
    && IsPermutation(Firsts(a.matches) + a.aUnmatched, r) && IsPermutation(Seconds(a.matches) + a.bUnmatched, c)
    && AscendingBelow(Firsts(a.matches), r) && AscendingBelow(a.aUnmatched, r) && AscendingBelow(a.bUnmatched, c)
  }

  /** The matching the matches list spells out. */
  ghost predicate Spells(matches: seq<(int, int)>, m: seq<int>) {
    && (forall k :: 0 <= k < |matches| ==> 0 <= matches[k].0 < |m| && m[matches[k].0] == matches[k].1 >= 0)
    && (forall i :: 0 <= i < |m| && m[i] >= 0 ==> (i, m[i]) in matches)
  }

  ghost predicate AscendingBelow(s: seq<int>, end: int) {
    (forall k :: 0 <= k < |s| ==> 0 <= s[k] < end) && (forall k, l :: 0 <= k < l < |s| ==> s[k] < s[l])
  }

  /** The rows before `end`, sorted into matches and unmatched rows. */
  ghost predicate RowsSorted(m: seq<int>, matches: seq<(int, int)>, left: seq<int>, end: int)
    requires 0 <= end <= |m|
  {
    && AscendingBelow(Firsts(matches), end) && AscendingBelow(left, end)
    && (forall k :: 0 <= k < |matches| ==> m[matches[k].0] == matches[k].1 >= 0)
    && (forall k :: 0 <= k < |left| ==> m[left[k]] < 0)
    && (forall i :: 0 <= i < end && m[i] >= 0 ==> (i, m[i]) in matches)
    && (forall i :: 0 <= i < end && m[i] < 0 ==> i in left)
  }

  ghost predicate ColumnsSorted(colsol: seq<int>, left: seq<int>, end: int)
    requires 0 <= end <= |colsol|
  {
    && AscendingBelow(left, end)
    && (forall k :: 0 <= k < |left| ==> colsol[left[k]] < 0)
    && (forall j :: 0 <= j < end && colsol[j] < 0 ==> j in left)
  }

  lemma RowsSortedStep(m: seq<int>, matches: seq<(int, int)>, left: seq<int>, end: int)
    requires 0 <= end < |m| && RowsSorted(m, matches, left, end)
    ensures m[end] >= 0 ==> RowsSorted(m, matches + [(end, m[end])], left, end + 1)
    ensures m[end] < 0 ==> RowsSorted(m, matches, left + [end], end + 1)
  {
    if m[end] >= 0 {
      var matches' := matches + [(end, m[end])];
      forall i | 0 <= i < end + 1 && m[i] >= 0 ensures (i, m[i]) in matches' {
        if i == end {
          assert matches'[|matches|] == (i, m[i]);
        }
      }
      assert Firsts(matches') == Firsts(matches) + [end];
    } else {
      var left' := left + [end];
      assert left'[|left|] == end;
      forall i | 0 <= i < end + 1 && m[i] < 0 ensures i in left' {
      }
    }
  }

  lemma {:induction false} SortedPartitions(rowsol: seq<int>, colsol: seq<int>, matches: seq<(int, int)>, a: seq<int>,
                                            b: seq<int>, r: nat, c: nat)
    requires BothSides(rowsol, colsol, r, c)
    requires RowsSorted(rowsol, matches, a, r) && ColumnsSorted(colsol, b, c)
    ensures Partitions(Assigned(matches, a, b), r, c)
  {
    var f, s := Firsts(matches) + a, Seconds(matches) + b;
    forall i | 0 <= i < r ensures i in f {
      if rowsol[i] >= 0 {
        var k :| 0 <= k < |matches| && matches[k] == (i, rowsol[i]);
        assert f[k] == i;
      } else {
        var k :| 0 <= k < |a| && a[k] == i;
        assert f[|matches| + k] == i;
      }
    }
    CoveringIsPermutation(f, r);
    forall j | 0 <= j < c ensures j in s {
      if colsol[j] >= 0 {
        var k :| 0 <= k < |matches| && matches[k] == (colsol[j], rowsol[colsol[j]]);
        assert s[k] == j;
      } else {
        var k :| 0 <= k < |b| && b[k] == j;
        assert s[|matches| + k] == j;
      }
    }
    SecondsDistinct(rowsol, colsol, matches, a, b, r, c);
    CoveringIsPermutation(s, c);
  }

  lemma {:induction false} SecondsDistinct(rowsol: seq<int>, colsol: seq<int>, matches: seq<(int, int)>, a: seq<int>,
                                           b: seq<int>, r: nat, c: nat)
    requires BothSides(rowsol, colsol, r, c)
    requires RowsSorted(rowsol, matches, a, r) && ColumnsSorted(colsol, b, c)
    ensures Distinct(Seconds(matches) + b) && Within(Seconds(matches) + b, c)
  {
    var s, f := Seconds(matches) + b, Firsts(matches);
    forall k, l | 0 <= k < l < |s| ensures s[k] != s[l] {
      if l < |matches| {
        assert f[k] < f[l];
      } else if k < |matches| {
        assert s[k] in rowsol && colsol[s[l]] < 0;
      }
    }
  }

  /** Lines 350 to 373 of BYTETracker.cpp: the solution sorted into matches and the two unmatched lists. */
  method SortSolution(rowsol: seq<int>, colsol: seq<int>, r: nat, c: nat) returns (a: Assigned)
    requires BothSides(rowsol, colsol, r, c)
    ensures a.Assigned? && Partitions(a, r, c) && Spells(a.matches, rowsol)
  {
    var matches, aUnmatched, bUnmatched := [], [], [];
    hide RowsSorted;
    RowsSortedStart(rowsol);
    for i := 0 to r
      invariant RowsSorted(rowsol, matches, aUnmatched, i)
    {
      RowsSortedStep(rowsol, matches, aUnmatched, i);
      if rowsol[i] >= 0 {
        matches := matches + [(i, rowsol[i])];
      } else {
        aUnmatched := aUnmatched + [i];
      }
    }
    for j := 0 to c
      invariant ColumnsSorted(colsol, bUnmatched, j)
    {
      if colsol[j] < 0 {
        bUnmatched := bUnmatched + [j];
      }
    }
    SortedPartitions(rowsol, colsol, matches, aUnmatched, bUnmatched, r, c);
    SortedSpells(rowsol, matches, aUnmatched, r);
    a := Assigned(matches, aUnmatched, bUnmatched);
  }

  /** `linearAssignment`. The cost matrix is empty exactly when one side is, as `calcIous` builds it. */
  method Assign(cost: Matrix, r: nat, c: nat, thresh: real) returns (a: Assigned, ghost ext: Matrix, ghost fill: real)
    requires if r == 0 || c == 0 then cost == [] else Rectangular(cost, r, c)
    ensures a.Assigned? ==> Partitions(a, r, c)
    ensures r == 0 || c == 0 ==> a.Assigned? && a.matches == []
    ensures r > 0 && c > 0 ==>
      && Extends(ext, cost, r, c, fill) && IsFill(cost, r, c, thresh, fill)
      && (a.Threw? <==> |Lapjv.Solved(ext, r + c).path| == r + c)
      && (WithinSentinel(ext, r + c) ==>
          a.Assigned? && exists m :: Spells(a.matches, m) && BestMatching(cost, m, r, c, fill))
  {
    ext, fill := [], 0.0;
    hide Partitions, BestMatching, Spells, IsFill, WithinSentinel;
    if |cost| == 0 {
      var aUnmatched, bUnmatched := [], [];
      for i := 0 to r
        invariant aUnmatched == seq(i, k => k)
      {
        aUnmatched := aUnmatched + [i];
      }
      for i := 0 to c
        invariant bUnmatched == seq(i, k => k)
      {
        bUnmatched := bUnmatched + [i];
      }
      NothingMatched(r, c);
      return Assigned([], aUnmatched, bUnmatched), ext, fill;
    }
    var outcome, rowsol, colsol, opt;
    outcome, rowsol, colsol, opt, ext, fill := ExecLapjv(cost, r, c, thresh);
    if outcome.PathTooLong? {
      return Threw, ext, fill;
    }
    a := SortSolution(rowsol, colsol, r, c);
  }

  lemma NothingMatched(r: nat, c: nat)
    ensures Partitions(Assigned([], seq(r, k => k), seq(c, k => k)), r, c)
  {
    var rows, columns := seq(r, k => k), seq(c, k => k);
    assert Firsts([]) + rows == rows && Seconds([]) + columns == columns;
  }

  lemma RowsSortedStart(m: seq<int>)
    ensures RowsSorted(m, [], [], 0)
  {
  }

  lemma SortedSpells(m: seq<int>, matches: seq<(int, int)>, left: seq<int>, r: nat)
    requires |m| == r && RowsSorted(m, matches, left, r)
    ensures Spells(matches, m)
  {
    forall k | 0 <= k < |matches| ensures 0 <= matches[k].0 < |m| {
      assert Firsts(matches)[k] == matches[k].0;
    }
  }
}
