/** A cost matrix on which the check of line 302 of lapjv.cpp throws away an optimal assignment. */
module ThrowingInput {
  import opened Permutations
  import opened Assignment
  import opened ShortestPath
  import opened PathSearch
  import opened Augmentation
  import ColumnReduction
  import Lapjv
  import RowReduction

  ghost const COST: Matrix := [
    [2.0, 2.0, 1.0, 0.0],
    [2.0, 2.0, 0.0, 0.0],
    [2.0, 1.0, 0.0, 1.0],
    [0.0, 0.0, 0.0, 2.0]]

  lemma CostIsLegal()
    ensures Square(COST, 4) && WithinSentinel(COST, 4)
  {
    forall i | 0 <= i < 4 ensures |COST[i]| == 4 && forall j :: 0 <= j < 4 ==> 0.0 <= COST[i][j] <= 2.0 {
      assert i == 0 || i == 1 || i == 2 || i == 3;
    }
  }

  // ----- Phase one: row 2 is left without a column -----

  lemma LeastEntries(j: int)
    requires 0 <= j < 4 && Square(COST, 4)
    ensures ColumnReduction.ColumnLeast(COST, j, 4) == ColumnReduction.Least(0.0, [3, 3, 1, 0][j])
  {
    assert ColumnReduction.ColumnLeast(COST, j, 1) == ColumnReduction.Least(COST[0][j], 0);
    var two := ColumnReduction.ColumnLeast(COST, j, 2);
    var three := ColumnReduction.ColumnLeast(COST, j, 3);
    assert two.price == [2.0, 2.0, 0.0, 0.0][j] && two.row == [0, 0, 1, 0][j];
    assert three.price == [2.0, 1.0, 0.0, 0.0][j] && three.row == [0, 2, 1, 0][j];
  }

  lemma HandledColumns()
    requires Square(COST, 4)
    ensures ColumnReduction.Handled(COST, 4)
         == ColumnReduction.Columns([3, 2, -1, 1], [-1, 3, 1, 0], [true, true, true, false])
  {
    forall j | 0 <= j < 4 ensures ColumnReduction.MinRows(COST, 4)[j] == [3, 3, 1, 0][j] {
      LeastEntries(j);
    }
    var c := ColumnReduction.Columns([-1, -1, -1, -1], [3, 3, 1, 0], [true, true, true, true]);
    assert c == ColumnReduction.Columns(seq(4, i => -1), ColumnReduction.MinRows(COST, 4), seq(4, i => true));
    var c3 := ColumnReduction.AssignColumn(c, 3);
    var c2 := ColumnReduction.AssignColumn(c3, 2);
    var c1 := ColumnReduction.AssignColumn(c2, 1);
    var c0 := ColumnReduction.AssignColumn(c1, 0);
    assert c3.x == [3, -1, -1, -1] && c2.x == [3, 2, -1, -1] && c1.x == [3, 2, -1, 1];
    assert c1.y == [3, 3, 1, 0] && c0.y == [-1, 3, 1, 0] && c0.unique == [true, true, true, false];
    assert ColumnReduction.AssignBefore(c, 4) == ColumnReduction.AssignBefore(c3, 3)
        == ColumnReduction.AssignBefore(c2, 2) == ColumnReduction.AssignBefore(c1, 1)
        == ColumnReduction.AssignBefore(c0, 0);
  }

  ghost function Lesser(skip: bool, c: real, rest: real): real {
    if !skip && c < rest then c else rest
  }

  lemma SecondBestOfRow(v: seq<real>, i: int, j: int)
    requires Square(COST, 4) && |v| == 4 && 0 <= i < 4 && 0 <= j < 4
    ensures ColumnReduction.SecondBest(COST, v, i, j, 4)
         == Lesser(j == 3, COST[i][3] - v[3], Lesser(j == 2, COST[i][2] - v[2],
            Lesser(j == 1, COST[i][1] - v[1], Lesser(j == 0, COST[i][0] - v[0], LARGE))))
  {
    var r0 := Lesser(j == 0, COST[i][0] - v[0], LARGE);
    var r1 := Lesser(j == 1, COST[i][1] - v[1], r0);
    assert ColumnReduction.SecondBest(COST, v, i, j, 1) == r0;
    assert ColumnReduction.SecondBest(COST, v, i, j, 2) == r1;
    assert ColumnReduction.SecondBest(COST, v, i, j, 3) == Lesser(j == 2, COST[i][2] - v[2], r1);
  }

  /** The prices after column reduction; they do not move any more. */
  ghost const V: seq<real> := [0.0, 0.0, -1.0, -1.0]
  ghost const REDUCED := State([3, 2, -1, 1], [-1, 3, 1, 0], V, [2])

  lemma PhaseOne()
    requires Square(COST, 4)
    ensures ColumnReduction.Reduced(COST, 4) == REDUCED
  {
    HandledColumns();
    var x, unique := [3, 2, -1, 1], [true, true, true, false];
    var v0 := ColumnReduction.Prices(COST, 4);
    forall j | 0 <= j < 4 ensures v0[j] == 0.0 {
      LeastEntries(j);
    }
    SecondBestOfRow(v0, 0, 3);
    var v1 := ColumnReduction.TransferRow(COST, v0, x, unique, 0);
    assert v1 == [0.0, 0.0, 0.0, -1.0];
    SecondBestOfRow(v1, 1, 2);
    var v2 := ColumnReduction.TransferRow(COST, v1, x, unique, 1);
    assert v2 == [0.0, 0.0, -1.0, -1.0];
    assert ColumnReduction.Transferred(COST, v0, x, unique, 1) == v1;
    assert ColumnReduction.Transferred(COST, v0, x, unique, 2) == v2;
    assert ColumnReduction.Transferred(COST, v0, x, unique, 3) == v2;
    assert ColumnReduction.Columnless(x, 1) == [] && ColumnReduction.Columnless(x, 2) == [];
    assert ColumnReduction.Columnless(x, 3) == [2];
  }

  // ----- Phase two: row 2 displaces row 1, and row 1 displaces row 0 -----

  ghost const FIRST := State([3, 2, 2, 1], [-1, 3, 2, 0], V, [1])
  ghost const SECOND := State([3, 3, 2, 1], [-1, 3, 2, 1], V, [0])

  /** A pass that places its only row without a lead, so that the row it displaces is given up. */
  lemma OnePass(s: State, t: State)
    requires Square(COST, 4) && Shaped(s, 4) && |s.free| == 1
    requires var c := RowReduction.Choose(COST, s.v, s.y, s.free[0], true);
      && s.y[c.j] >= 0 && !c.lowered
      && t == State(s.x[s.free[0] := c.j], s.y[c.j := s.free[0]], c.w, [s.y[c.j]])
    ensures Shaped(s, 4) && RowReduction.RowsReduced(COST, 4, s) == t
  {
    var c0 := RowReduction.Rows(s.x, s.y, s.v, [], s.free, 0);
    RowReduction.StartIsReady(COST, 4, s);
    RowReduction.AllRowsStep(COST, 4, c0, 1);
    var c1 := RowReduction.NextRows(COST, 4, c0, 1);
    assert RowReduction.MayPutBack(1, 1, 4) && s.free[1..] == [];
    assert c1.done == t.free && c1.todo == [];
    RowReduction.AllRowsEnd(COST, 4, c1, 1);
  }

  lemma FirstPass()
    requires Square(COST, 4)
    ensures Shaped(REDUCED, 4) && RowReduction.RowsReduced(COST, 4, REDUCED) == FIRST
  {
    assert RowReduction.Scan(COST, V, 2, 1) == RowReduction.TwoBest(0, 2.0, -1, LARGE);
    assert RowReduction.Scan(COST, V, 2, 2) == RowReduction.TwoBest(1, 1.0, 0, 2.0);
    assert RowReduction.Scan(COST, V, 2, 3) == RowReduction.TwoBest(1, 1.0, 2, 1.0);
    OnePass(REDUCED, FIRST);
  }

  lemma SecondPass()
    requires Square(COST, 4)
    ensures Shaped(FIRST, 4) && RowReduction.RowsReduced(COST, 4, FIRST) == SECOND
  {
    assert RowReduction.Scan(COST, V, 1, 1) == RowReduction.TwoBest(0, 2.0, -1, LARGE);
    assert RowReduction.Scan(COST, V, 1, 2) == RowReduction.TwoBest(0, 2.0, 1, 2.0);
    assert RowReduction.Scan(COST, V, 1, 3) == RowReduction.TwoBest(2, 1.0, 0, 2.0);
    OnePass(FIRST, SECOND);
  }

  lemma PhaseTwo()
    requires Square(COST, 4)
    ensures Lapjv.Prepared(COST, 4) == SECOND
  {
    PhaseOne();
    FirstPass();
    SecondPass();
    hide RowReduction.RowsReduced;
    Lapjv.PassesStep(COST, 4, REDUCED, 2);
    Lapjv.PassesStep(COST, 4, FIRST, 1);
    Lapjv.PassesEnd(COST, 4, SECOND, 0);
  }

  // ----- Phase three: the path of row 0 goes through all four columns -----

  ghost const Y: seq<int> := [-1, 3, 2, 1]

  ghost predicate Legal(c: Search, hi: int) {
    Rowed(COST, V, Y, 0, c, hi)
  }

  lemma Legals(c: Search, hi: int)
    requires Square(COST, 4) && |c.d| == |c.pred| == 4 && 0 <= hi <= 4
    requires
      || (c.cols == [3, 1, 2, 0] && hi <= 3)
      || (c.cols == [3, 2, 1, 0] && hi <= 3)
      || (c.cols == [0, 1, 2, 3] && hi == 0)
    ensures Legal(c, hi)
  {
  }

  lemma ClosestStep(d: seq<real>, cols: seq<int>, lo: nat, hi: nat, k: nat, h: nat, next: seq<int>)
    requires Within(cols, |d|) && lo < hi <= k < |cols| && d[cols[k]] <= d[cols[lo]]
    requires h == if d[cols[k]] < d[cols[lo]] then lo else hi
    requires next == cols[k := cols[h]][h := cols[k]]
    ensures Within(next, |d|) && Closest(d, cols, lo, hi, k) == Closest(d, next, lo, h + 1, k + 1)
  {
  }

  lemma SelectionOfThree()
    ensures Closest([2.0, 2.0, 2.0, 1.0], [0, 1, 2, 3], 0, 1, 1) == ([3, 1, 2, 0], 1)
  {
    var d := [2.0, 2.0, 2.0, 1.0];
    ClosestStep(d, [0, 1, 2, 3], 0, 1, 1, 1, [0, 1, 2, 3]);
    ClosestStep(d, [0, 1, 2, 3], 0, 2, 2, 2, [0, 1, 2, 3]);
    ClosestStep(d, [0, 1, 2, 3], 0, 3, 3, 0, [3, 1, 2, 0]);
  }

  ghost const C1 := Search([3, 1, 2, 0], [2.0, 2.0, 2.0, 1.0], [0, 0, 0, 0])
  ghost const C2 := Search([3, 2, 1, 0], [2.0, 2.0, 1.0, 1.0], [0, 0, 1, 0])
  ghost const C3 := Search([3, 2, 1, 0], [2.0, 1.0, 1.0, 1.0], [0, 2, 1, 0])
  ghost const C4 := Search([3, 2, 1, 0], [1.0, 1.0, 1.0, 1.0], [3, 2, 1, 0])

  /** The column at position k is reached at distance dist and, if that is the current one and it has a row, joins
      the batch. */
  lemma Reach(c: Search, lo: int, hi: int, k: int, dist: real, c': Search)
    requires Square(COST, 4) && Legal(c, hi) && 1 <= lo <= hi <= k < 4
    requires var (j, q) := (c.cols[k], c.cols[lo - 1]);
      && dist == COST[Y[q]][j] - V[j] - (COST[Y[q]][q] - V[q] - c.d[q]) < c.d[j]
      && c'.d == c.d[j := dist] && c'.pred == c.pred[j := Y[q]]
      && c'.cols == if dist == c.d[q] && Y[j] >= 0 then c.cols[k := c.cols[hi]][hi := c.cols[k]] else c.cols
    ensures Next(COST, V, Y, 0, c, lo, hi, k) ==
      (c', if dist == c.d[c.cols[lo - 1]] && Y[c.cols[k]] >= 0 then hi + 1 else hi)
    ensures Stops(COST, V, Y, 0, c, lo, hi, k) <==> dist == c.d[c.cols[lo - 1]] && Y[c.cols[k]] < 0
  {
  }

  /** Row 1 reaches column 2, which joins the batch. */
  lemma FirstColumn()
    requires Square(COST, 4) && Legal(C1, 1) && Legal(C2, 2)
    ensures ScanFrom(COST, V, Y, 0, C1, 1, 1, 1) == Scanned(C2, 1, 2, -1)
  {
    assert Next(COST, V, Y, 0, C1, 1, 1, 1) == (C1, 1) && !Stops(COST, V, Y, 0, C1, 1, 1, 1);
    ScanFromStep(COST, V, Y, 0, C1, 1, 1, 1);
    Reach(C1, 1, 1, 2, 1.0, C2);
    ScanFromStep(COST, V, Y, 0, C1, 1, 1, 2);
    assert Next(COST, V, Y, 0, C2, 1, 2, 3) == (C2, 2) && !Stops(COST, V, Y, 0, C2, 1, 2, 3);
    ScanFromStep(COST, V, Y, 0, C2, 1, 2, 3);
    ScanFromEnd(COST, V, Y, 0, C2, 1, 2);
  }

  /** Row 2 reaches column 1, which joins the batch. */
  lemma SecondColumn()
    requires Square(COST, 4) && Legal(C2, 2) && Legal(C3, 3)
    ensures ScanFrom(COST, V, Y, 0, C2, 2, 2, 2) == Scanned(C3, 2, 3, -1)
  {
    Reach(C2, 2, 2, 2, 1.0, C3);
    ScanFromStep(COST, V, Y, 0, C2, 2, 2, 2);
    assert Next(COST, V, Y, 0, C3, 2, 3, 3) == (C3, 3) && !Stops(COST, V, Y, 0, C3, 2, 3, 3);
    ScanFromStep(COST, V, Y, 0, C3, 2, 3, 3);
    ScanFromEnd(COST, V, Y, 0, C3, 2, 3);
  }

  /** Row 3 reaches column 0, which has no row. */
  lemma ThirdColumn()
    requires Square(COST, 4) && Legal(C3, 3)
    ensures ScanFrom(COST, V, Y, 0, C3, 3, 3, 3) == Scanned(C4, 3, 3, 0)
  {
    Reach(C3, 3, 3, 3, 1.0, C4);
    ScanFromStep(COST, V, Y, 0, C3, 3, 3, 3);
  }

  lemma WholeBatch()
    requires Square(COST, 4) && Legal(C1, 1)
    ensures ScanBatch(COST, V, Y, 0, C1, 0, 1) == Scanned(C4, 3, 3, 0)
  {
    Legals(C2, 2);
    Legals(C3, 3);
    FirstColumn();
    SecondColumn();
    ThirdColumn();
    ScanBatchStep(COST, V, Y, 0, C1, 0, 1);
    ScanBatchStep(COST, V, Y, 0, C2, 1, 2);
    ScanBatchStep(COST, V, Y, 0, C3, 2, 3);
  }

  lemma PhaseThree()
    requires Square(COST, 4)
    ensures Searchable(COST, V, Y, 0)
    ensures var e := SearchOf(COST, V, Y, 0);
      e.c == C4 && e.final == 0 && e.nReady == 0
  {
    assert Y[0] == -1;
    var c0 := Search([0, 1, 2, 3], [2.0, 2.0, 2.0, 1.0], [0, 0, 0, 0]);
    assert Start(COST, V, 0) == c0;
    Legals(c0, 0);
    SelectionOfThree();
    assert Selected(c0, 0) == (C1, 1);
    assert LastUnassigned(Y, C1.cols, 0, 1) == -1;
    Legals(C1, 1);
    WholeBatch();
  }

  lemma WalkStep(pred: seq<int>, s: int, n: nat, x: seq<int>, y: seq<int>, path: seq<int>, x': seq<int>, y': seq<int>,
                 path': seq<int>)
    requires Walkable(pred, s, x, n) && |y| == n && 1 <= |path| < n && Within(path, n)
    requires var j := path[|path| - 1];
      pred[j] != s && x' == x[pred[j] := j] && y' == y[j := pred[j]] && path' == path + [x[pred[j]]]
    ensures Walkable(pred, s, x', n) && Within(path', n) && |y'| == n && 1 <= |path'| <= n
    ensures WalkFrom(pred, s, x, y, path, n) == WalkFrom(pred, s, x', y', path', n)
  {
    assert WalkFrom(pred, s, x, y, path, n) == WalkFrom(pred, s, x', y', path', n);
  }

  lemma WalkEnd(pred: seq<int>, s: int, n: nat, x: seq<int>, y: seq<int>, path: seq<int>, x': seq<int>, y': seq<int>)
    requires Walkable(pred, s, x, n) && |y| == n && 1 <= |path| <= n && Within(path, n)
    requires var j := path[|path| - 1];
      pred[j] == s && x' == x[pred[j] := j] && y' == y[j := pred[j]]
    ensures WalkFrom(pred, s, x, y, path, n) == Walked(x', y', path)
  {
  }

  lemma SecondHalf()
    requires Walkable(C4.pred, 0, [3, 3, 1, 0], 4)
    ensures WalkFrom(C4.pred, 0, [3, 3, 1, 0], [3, 2, 2, 1], [0, 1, 2], 4) ==
      Walked([3, 2, 1, 0], [3, 2, 1, 0], [0, 1, 2, 3])
  {
    hide WalkFrom, Walkable;
    WalkStep(C4.pred, 0, 4, [3, 3, 1, 0], [3, 2, 2, 1], [0, 1, 2], [3, 2, 1, 0], [3, 2, 1, 1], [0, 1, 2, 3]);
    WalkEnd(C4.pred, 0, 4, [3, 2, 1, 0], [3, 2, 1, 1], [0, 1, 2, 3], [3, 2, 1, 0], [3, 2, 1, 0]);
  }

  lemma WalkOfFour()
    ensures Walkable(C4.pred, 0, [3, 3, 2, 1], 4)
    ensures WalkFrom(C4.pred, 0, [3, 3, 2, 1], Y, [0], 4) == Walked([3, 2, 1, 0], [3, 2, 1, 0], [0, 1, 2, 3])
  {
    assert Walkable(C4.pred, 0, [3, 3, 2, 1], 4);
    hide WalkFrom, Walkable;
    WalkStep(C4.pred, 0, 4, [3, 3, 2, 1], Y, [0], [3, 3, 2, 0], [3, 3, 2, 1], [0, 1]);
    WalkStep(C4.pred, 0, 4, [3, 3, 2, 0], [3, 3, 2, 1], [0, 1], [3, 3, 1, 0], [3, 2, 2, 1], [0, 1, 2]);
    SecondHalf();
  }

  lemma PathOfFour()
    requires Searchable(COST, V, Y, 0)
    requires var e := SearchOf(COST, V, Y, 0);
      e.c == C4 && e.final == 0 && e.nReady == 0
    ensures PathOf(COST, V, Y, 0) == Path(0, V, C4.pred)
  {
  }

  lemma ThrewMeans(a: Augmented, n: nat)
    ensures a.Threw(n) <==> |a.path| == n
  {
  }

  lemma PhaseThreeThrows(a: Augmented)
    requires Augmentable(COST, 4, a, [0]) && a.x == [3, 3, 2, 1] && a.y == Y && a.v == V
    ensures var r := AugmentAll(COST, 4, a, [0]);
      r.x == [3, 2, 1, 0] && |r.path| == 4
  {
    PhaseThree();
    PathOfFour();
    hide *;
    AugmentStep(COST, 4, a, [0]);
    WalkOfFour();
    ThrewMeans(NextAugmented(COST, 4, a, [0]), 4);
  }

  /** The solver throws on this matrix, with an optimal assignment already in x. */
  lemma {:induction false} OptimalYetThrown()
    ensures Square(COST, 4) && WithinSentinel(COST, 4)
    ensures |Lapjv.Solved(COST, 4).path| == 4
    ensures Lapjv.Solved(COST, 4).x == [3, 2, 1, 0] && Optimal(COST, [3, 2, 1, 0], 4)
  {
    CostIsLegal();
    PhaseTwo();
    hide *;
    Lapjv.SolvedParts(COST, 4);
    Lapjv.SolvedIsOptimal(COST, 4);
    PhaseThreeThrows(Lapjv.Unwalked(Lapjv.Prepared(COST, 4)));
  }
}
