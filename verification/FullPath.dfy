/** When the solver cannot throw: two equal rows or two equal columns keep every augmenting path short. */
module FullPath {
  import opened Permutations
  import opened Assignment
  import opened ShortestPath
  import opened PathSearch
  import opened Augmentation
  import opened Threshold
  import Lapjv
  import RowReduction
  import ColumnReduction

  ghost predicate SameRows(cost: Matrix, n: nat, i: int, k: int)
    requires Square(cost, n)
  {
    0 <= i < n && 0 <= k < n && i != k && forall j :: 0 <= j < n ==> cost[i][j] == cost[k][j]
  }

  ghost predicate SameColumns(cost: Matrix, n: nat, j: int, k: int)
    requires Square(cost, n)
  {
    0 <= j < n && 0 <= k < n && j != k && forall i :: 0 <= i < n ==> cost[i][j] == cost[i][k]
  }

  /** Two rows or two columns of the matrix cannot be told apart. */
  ghost predicate Twins(cost: Matrix, n: nat)
    requires Square(cost, n)
  {
    (exists i, k :: SameRows(cost, n, i, k)) || (exists j, k :: SameColumns(cost, n, j, k))
  }

  // ----- A search that has scanned all columns but the found one -----

  ghost predicate Exhausted(cost: Matrix, v: seq<real>, y: seq<int>, s: int, c: Search, m: int, h: int) {
    && Structure(cost, v, y, s, c, m, h) && RowsMinimal(cost, v, y)
    && AllEarliest(cost, v, y, s, c, m) && AllRelaxed(cost, v, y, s, c, m)
  }

  /** No distance undercuts the start row's own least reduced cost. */
  lemma {:induction false} DistanceAtLeast(cost: Matrix, v: seq<real>, y: seq<int>, s: int, c: Search, m: int, h: int,
                                           floor: real, p: int)
    requires Structure(cost, v, y, s, c, m, h) && RowsMinimal(cost, v, y) && 0 <= p < |v|
    requires forall k :: 0 <= k < |v| ==> floor <= cost[s][k] - v[k]
    ensures floor <= c.d[c.cols[p]]
    decreases p
  {
    assert Parented(cost, v, y, s, c, p, m);
    var j := c.cols[p];
    if !(c.pred[j] == s && c.d[j] == cost[s][j] - v[j]) {
      var q :| 0 <= q < m && q < p && Edge(cost, v, y, s, c, q, j);
      DistanceAtLeast(cost, v, y, s, c, m, h, floor, q);
      ViaAtLeast(cost, v, y, s, c, q, j);
    }
  }

  /** A row equal to the start row never offers a strictly shorter way. */
  lemma {:induction false} TwinOfStart(cost: Matrix, v: seq<real>, y: seq<int>, s: int, c: Search, m: int, h: int,
                                       q: int, b: int)
    requires Exhausted(cost, v, y, s, c, m, h) && 0 <= q < m && 0 <= b < |v|
    requires SameRows(cost, |v|, s, y[c.cols[q]])
    ensures Via(cost, v, y, s, c, q, b) == cost[s][b] - v[b]
  {
    var i, jq := y[c.cols[q]], c.cols[q];
    assert RowMin(cost, v, i, jq);
    DistanceAtLeast(cost, v, y, s, c, m, h, cost[s][jq] - v[jq], q);
  }

  /** Of two equal rows the one scanned later never offers a strictly shorter way. */
  lemma {:induction false} TwinsScanned(cost: Matrix, v: seq<real>, y: seq<int>, s: int, c: Search, m: int, h: int,
                                        p: int, q: int, b: int)
    requires Exhausted(cost, v, y, s, c, m, h) && 0 <= p < m && 0 <= q < m && 0 <= b < |v|
    requires SameRows(cost, |v|, y[c.cols[p]], y[c.cols[q]])
    ensures Via(cost, v, y, s, c, p, b) == Via(cost, v, y, s, c, q, b)
  {
    var jp, jq := c.cols[p], c.cols[q];
    assert RowMin(cost, v, y[jp], jp) && RowMin(cost, v, y[jq], jq);
    assert Relaxed(cost, v, y, s, c, p, |v|) && Relaxed(cost, v, y, s, c, q, |v|);
    assert c.d[c.cols[q]] <= Via(cost, v, y, s, c, p, c.cols[q]);
    assert c.d[c.cols[p]] <= Via(cost, v, y, s, c, q, c.cols[p]);
  }

  lemma EdgeOf(cost: Matrix, v: seq<real>, y: seq<int>, s: int, c: Search, m: int, j: int) returns (q: int)
    requires AllEarliest(cost, v, y, s, c, m) && 0 <= j < |v|
    ensures if Direct(cost, v, s, c, j) then q == -1
            else 0 <= q < m && EdgeFirst(cost, v, y, s, c, q, j) && c.pred[j] == y[c.cols[q]]
  {
    q := -1;
    if !Direct(cost, v, s, c, j) {
      q :| 0 <= q < m && EdgeFirst(cost, v, y, s, c, q, j);
    }
  }

  /** At most one of two equal rows is the predecessor of anything. */
  lemma {:induction false} OneTwinPrecedes(cost: Matrix, v: seq<real>, y: seq<int>, s: int, c: Search, m: int, h: int,
                                           a: int, b: int)
    requires Exhausted(cost, v, y, s, c, m, h) && 0 <= a < |v| && 0 <= b < |v|
    ensures !SameRows(cost, |v|, c.pred[a], c.pred[b])
  {
    var n := |v|;
    if SameRows(cost, n, c.pred[a], c.pred[b]) {
      var p := EdgeOf(cost, v, y, s, c, m, a);
      var q := EdgeOf(cost, v, y, s, c, m, b);
      if p == -1 {
        TwinOfStart(cost, v, y, s, c, m, h, q, b);
      } else if q == -1 {
        TwinOfStart(cost, v, y, s, c, m, h, p, a);
      } else {
        TwinsScanned(cost, v, y, s, c, m, h, p, q, if p < q then b else a);
      }
    }
  }

  lemma {:induction false} TwinColumnNoFarther(cost: Matrix, v: seq<real>, y: seq<int>, s: int, c: Search, m: int,
                                               h: int, j: int, k: int)
    requires Exhausted(cost, v, y, s, c, m, h) && SameColumns(cost, |v|, j, k) && v[j] == v[k]
    ensures c.d[j] <= c.d[k]
  {
    var q := EdgeOf(cost, v, y, s, c, m, k);
    if q != -1 {
      var p := Position(c.cols, |v|, j);
      assert Relaxed(cost, v, y, s, c, q, |v|);
      assert c.d[c.cols[p]] <= Via(cost, v, y, s, c, q, c.cols[p]);
      ViaTwin(cost, v, y, s, c, m, q, j, k);
    }
  }

  lemma ViaTwin(cost: Matrix, v: seq<real>, y: seq<int>, s: int, c: Search, m: int, q: int, j: int, k: int)
    requires Rowed(cost, v, y, s, c, m) && 0 <= q < m && SameColumns(cost, |v|, j, k) && v[j] == v[k]
    ensures Via(cost, v, y, s, c, q, j) == Via(cost, v, y, s, c, q, k)
  {
  }

  /** Two equal columns of equal price have the same predecessor. */
  lemma {:induction false} TwinColumnsTogether(cost: Matrix, v: seq<real>, y: seq<int>, s: int, c: Search, m: int,
                                               h: int, j: int, k: int)
    requires Exhausted(cost, v, y, s, c, m, h) && SameColumns(cost, |v|, j, k) && v[j] == v[k]
    ensures c.pred[j] == c.pred[k]
  {
    TwinColumnNoFarther(cost, v, y, s, c, m, h, j, k);
    assert SameColumns(cost, |v|, k, j);
    TwinColumnNoFarther(cost, v, y, s, c, m, h, k, j);
    var p := EdgeOf(cost, v, y, s, c, m, j);
    var q := EdgeOf(cost, v, y, s, c, m, k);
    if p != -1 && q != -1 {
      ViaTwin(cost, v, y, s, c, m, p, j, k);
      ViaTwin(cost, v, y, s, c, m, q, j, k);
    }
  }

  /** Equal columns always have equal prices: a row holds each of the assigned ones at its minimum,
      and the prices of the others have not moved from the column minimum. */
  lemma {:induction false} TwinPrices(cost: Matrix, v: seq<real>, y: seq<int>, n: nat, j: int, k: int)
    requires Square(cost, n) && |v| == n && Partial(y, n) && Priced(cost, v, y) && SameColumns(cost, n, j, k)
    ensures v[j] <= v[k]
  {
    if y[k] >= 0 {
      assert RowMin(cost, v, y[k], k);
    } else {
      assert AtEntry(cost, v, k);
      var i :| 0 <= i < n && v[k] == cost[i][k];
      assert v[j] <= cost[i][j];
    }
  }

  /** A walk over all columns gives each of them its predecessor, so no two columns share one. */
  lemma {:induction false} FullWalk(cost: Matrix, n: nat, a: Augmented, free: seq<int>)
    requires Augmentable(cost, n, a, free) && free != [] && NextAugmented(cost, n, a, free).Threw(n)
    ensures Searchable(cost, a.v, a.y, free[0])
    ensures var pred := PathOf(cost, a.v, a.y, free[0]).pred;
      IsPermutation(pred, n) && n <= |OrderOf(cost, a.v, a.y, free[0])|
  {
    NextArrives(cost, n, a, free);
    NextAugments(cost, n, a, free);
    RowIsSearchable(cost, n, a, free);
    PathIsWalkable(cost, n, a, free);
    var p, d := PathOf(cost, a.v, a.y, free[0]), NextAugmented(cost, n, a, free);
    WalkWritesPredecessors(p.pred, free[0], a.x, a.y, [p.final], n);
    NoFreeRows(d.x, d.y, n);
    PigeonHole(d.path, n);
    forall j | 0 <= j < n ensures p.pred[j] == d.y[j] {
      assert j in d.path;
    }
  }

  /** In a matrix with twins no walk goes through all columns. */
  lemma {:induction false} TwinsStopShort(cost: Matrix, n: nat, a: Augmented, free: seq<int>)
    requires Augmentable(cost, n, a, free) && free != [] && Priced(cost, a.v, a.y) && Twins(cost, n)
    ensures !NextAugmented(cost, n, a, free).Threw(n)
  {
    if NextAugmented(cost, n, a, free).Threw(n) {
      var s := free[0];
      FullWalk(cost, n, a, free);
      SearchOfEnds(cost, a.v, a.y, s);
      var e, pred := SearchOf(cost, a.v, a.y, s), PathOf(cost, a.v, a.y, s).pred;
      FoundAtLo(cost, a.v, a.y, s, e.c, e.final, e.m, e.h);
      assert e.m == n - 1;
      assert Exhausted(cost, a.v, a.y, s, e.c, e.m, e.h);
      if i, k :| SameRows(cost, n, i, k) {
        var p := Position(pred, n, i);
        var q := Position(pred, n, k);
        OneTwinPrecedes(cost, a.v, a.y, s, e.c, e.m, e.h, p, q);
      } else {
        var j, k :| SameColumns(cost, n, j, k);
        TwinPrices(cost, a.v, a.y, n, j, k);
        assert SameColumns(cost, n, k, j);
        TwinPrices(cost, a.v, a.y, n, k, j);
        TwinColumnsTogether(cost, a.v, a.y, s, e.c, e.m, e.h, j, k);
      }
    }
  }

  lemma {:induction false} TwinsNeverThrowFrom(cost: Matrix, n: nat, a: Augmented, free: seq<int>)
    requires Augmentable(cost, n, a, free) && Priced(cost, a.v, a.y) && Twins(cost, n) && !a.Threw(n)
    ensures !AugmentAll(cost, n, a, free).Threw(n)
    decreases |free|
  {
    hide Priced, Twins, NextAugmented, Augmented.Threw;
    if free != [] {
      TwinsStopShort(cost, n, a, free);
      NextAugments(cost, n, a, free);
      TwinsNeverThrowFrom(cost, n, NextAugmented(cost, n, a, free), free[1..]);
    }
  }

  /** The solver does not throw on a matrix with two equal rows or two equal columns. */
  lemma {:induction false} TwinsNeverThrow(cost: Matrix, n: nat)
    requires n >= 1 && Square(cost, n) && WithinSentinel(cost, n) && Twins(cost, n)
    ensures |Lapjv.Solved(cost, n).path| != n
  {
    hide Priced, Twins, WithinSentinel;
    Lapjv.PreparedIsPriced(cost, n);
    Lapjv.SolvedParts(cost, n);
    var s := Lapjv.Prepared(cost, n);
    TwinsNeverThrowFrom(cost, n, Lapjv.Unwalked(s), s.free);
  }

  // ----- Two rows -----

  /** The two columns handled, from their minimum rows u and t. */
  lemma {:induction false} TwoHandled(cost: Matrix, u: int, t: int)
    requires Square(cost, 2) && 0 <= u < 2 && 0 <= t < 2
    requires u == ColumnReduction.ColumnLeast(cost, 0, 2).row && t == ColumnReduction.ColumnLeast(cost, 1, 2).row
    ensures var c := ColumnReduction.Handled(cost, 2);
      if u == t then c.x == [-1, -1][t := 1] && c.y == [-1, t] && c.unique == [true, true][t := false]
      else c.x[0] >= 0 && c.x[1] >= 0
  {
    var c0 := ColumnReduction.Columns([-1, -1], [u, t], [true, true]);
    var c1 := ColumnReduction.AssignColumn(c0, 1);
    var c2 := ColumnReduction.AssignColumn(c1, 0);
    assert ColumnReduction.Columns(seq(2, i => -1), ColumnReduction.MinRows(cost, 2), seq(2, i => true)) == c0;
    assert ColumnReduction.AssignBefore(c1, 1) == ColumnReduction.AssignBefore(c2, 0);
  }

  /** With two rows, column reduction frees one only if both columns are cheapest in the other. */
  lemma {:induction false} TwoColumnsReduced(cost: Matrix, t: int)
    requires Square(cost, 2) && WithinSentinel(cost, 2)
    requires t == ColumnReduction.ColumnLeast(cost, 1, 2).row
    ensures var s := ColumnReduction.Reduced(cost, 2);
      && 0 <= t < 2
      && (s.free == [] ||
          (&& s.free == [1 - t] && s.y == [-1, t] && s.v == [cost[t][0], cost[t][1]]
           && cost[t][0] <= cost[1 - t][0] && cost[t][1] <= cost[1 - t][1]))
  {
    var s, c := ColumnReduction.Reduced(cost, 2), ColumnReduction.Handled(cost, 2);
    var u := ColumnReduction.ColumnLeast(cost, 0, 2).row;
    LeastOfTwo(cost, 0);
    LeastOfTwo(cost, 1);
    TwoHandled(cost, u, t);
    hide ColumnReduction.Handled, ColumnReduction.ColumnLeast, WithinSentinel, ColumnReduction.SecondBest;
    if u == t {
      var v := ColumnReduction.Prices(cost, 2);
      assert ColumnReduction.Columnless(c.x, 1) == if t == 0 then [] else [0];
      assert ColumnReduction.Transferred(cost, v, c.x, c.unique, 1) == v;
      assert s.v == v;
    } else {
      assert ColumnReduction.Columnless(c.x, 1) == [];
    }
  }

  lemma LeastOfTwo(cost: Matrix, j: int)
    requires Square(cost, 2) && WithinSentinel(cost, 2) && 0 <= j < 2
    ensures var b := ColumnReduction.ColumnLeast(cost, j, 2);
      && 0 <= b.row < 2 && b.price == cost[b.row][j] <= cost[1 - b.row][j]
  {
    assert ColumnReduction.ColumnLeast(cost, j, 1) == ColumnReduction.Least(cost[0][j], 0);
  }

  /** Scanning a row of two. */
  lemma ScanOfTwo(cost: Matrix, v: seq<real>, f: int)
    requires Square(cost, 2) && |v| == 2 && 0 <= f < 2
    requires cost[f][1] - v[1] < LARGE
    ensures var (b, a0, a1) := (RowReduction.Scan(cost, v, f, 2), cost[f][0] - v[0], cost[f][1] - v[1]);
      b == if a1 >= a0 then RowReduction.TwoBest(0, a0, 1, a1)
           else RowReduction.TwoBest(1, a1, 0, a0)
  {
    assert RowReduction.Scan(cost, v, f, 1) == RowReduction.TwoBest(0, cost[f][0] - v[0], -1, LARGE);
  }

  /** The free row takes a column nobody has, or the one of the other row, which then takes the first column. */
  lemma {:induction false} FirstRound(cost: Matrix, t: int, c: RowReduction.Rows)
    requires Square(cost, 2) && WithinSentinel(cost, 2) && 0 <= t < 2 && RowReduction.Ready(cost, 2, c, 1)
    requires c.todo == [1 - t] && c.done == [] && c.rounds == 0 && c.y == [-1, t] && c.v == [cost[t][0], cost[t][1]]
    ensures var d := RowReduction.NextRows(cost, 2, c, 1);
      && d.done == []
      && (d.todo == [] || (d.todo == [t] && d.rounds == 1 && d.y[0] == -1 && |d.v| == 2
                           && d.v[0] == cost[t][0] && d.v[1] < cost[t][1] && cost[t][1] - d.v[1] < LARGE))
  {
    var f, v := 1 - t, c.v;
    var a0, a1 := cost[f][0] - v[0], cost[f][1] - v[1];
    ScanOfTwo(cost, v, f);
    hide RowReduction.Scan;
  }

  lemma {:induction false} SecondRound(cost: Matrix, t: int, c: RowReduction.Rows)
    requires Square(cost, 2) && 0 <= t < 2 && RowReduction.Ready(cost, 2, c, 1)
    requires c.todo == [t] && c.done == [] && c.rounds == 1 && c.y[0] == -1
    requires c.v[0] == cost[t][0] && c.v[1] < cost[t][1] && cost[t][1] - c.v[1] < LARGE
    ensures var d := RowReduction.NextRows(cost, 2, c, 1);
      d.done == [] && d.todo == []
  {
    ScanOfTwo(cost, c.v, t);
    hide RowReduction.Scan;
  }

  /** With two rows, the first pass of row reduction places the free one: at once, or after one swap. */
  lemma {:induction false} TwoRowsPlaced(cost: Matrix, t: int, s: State)
    requires Square(cost, 2) && WithinSentinel(cost, 2) && 0 <= t < 2 && Shaped(s, 2)
    requires s.free == [1 - t] && s.y == [-1, t] && s.v == [cost[t][0], cost[t][1]]
    requires cost[t][0] <= cost[1 - t][0] && cost[t][1] <= cost[1 - t][1]
    ensures RowReduction.RowsReduced(cost, 2, s).free == []
  {
    var c0 := RowReduction.Rows(s.x, s.y, s.v, [], [1 - t], 0);
    RowReduction.StartIsReady(cost, 2, s);
    hide RowReduction.NextRows, RowReduction.AllRows, RowReduction.Ready, WithinSentinel;
    RowReduction.AllRowsStep(cost, 2, c0, 1);
    FirstRound(cost, t, c0);
    var c1 := RowReduction.NextRows(cost, 2, c0, 1);
    if c1.todo == [] {
      RowReduction.AllRowsEnd(cost, 2, c1, 1);
    } else {
      RowReduction.AllRowsStep(cost, 2, c1, 1);
      SecondRound(cost, t, c1);
      RowReduction.AllRowsEnd(cost, 2, RowReduction.NextRows(cost, 2, c1, 1), 1);
    }
  }

  /** With two rows the search never runs. */
  lemma {:induction false} TwoRowsNeverThrow(cost: Matrix)
    requires Square(cost, 2) && WithinSentinel(cost, 2)
    ensures |Lapjv.Solved(cost, 2).path| != 2
  {
    var s, t := ColumnReduction.Reduced(cost, 2), ColumnReduction.ColumnLeast(cost, 1, 2).row;
    ColumnReduction.ReducedIsPriced(cost, 2);
    Lapjv.SoundIsShaped(s, 2);
    TwoColumnsReduced(cost, t);
    hide WithinSentinel, Sound, ColumnReduction.Reduced;
    if s.free != [] {
      TwoRowsPlaced(cost, t, s);
      Lapjv.PassesStep(cost, 2, s, 2);
      Lapjv.PassesEnd(cost, 2, RowReduction.RowsReduced(cost, 2, s), 1);
    }
    Lapjv.SolvedParts(cost, 2);
  }

  /** The square problem of the tracker has as many equal rows as there are columns, and as many equal
      columns as there are rows, so solving it never throws. */
  lemma {:induction false} ExtendedNeverThrows(ext: Matrix, cost: Matrix, r: nat, c: nat, fill: real)
    requires r >= 1 && c >= 1 && Extends(ext, cost, r, c, fill) && WithinSentinel(ext, r + c)
    ensures |Lapjv.Solved(ext, r + c).path| != r + c
  {
    hide WithinSentinel;
    var n := r + c;
    if c >= 2 {
      assert SameRows(ext, n, r, r + 1);
      TwinsNeverThrow(ext, n);
    } else if r >= 2 {
      assert SameColumns(ext, n, c, c + 1);
      TwinsNeverThrow(ext, n);
    } else {
      TwoRowsNeverThrow(ext);
    }
  }
}
