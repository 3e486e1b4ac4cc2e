/** Phase three, one row: search, price update, and the tree that the augmenting walk follows back. */
module PathSearch {
  import opened Permutations
  import opened Assignment
  import opened ShortestPath

  /** Columns in the order the search settled them, ending in an unassigned one: each was reached
      from the start row s or from the row of an earlier column. */
  ghost predicate PathTree(y: seq<int>, pred: seq<int>, s: int, order: seq<int>, n: nat) {
    && |y| == |pred| == n && 0 <= s < n
    && 1 <= |order| <= n && Within(order, n) && Distinct(order)
    && y[order[|order| - 1]] < 0
    && (forall p :: 0 <= p < |order| - 1 ==> 0 <= y[order[p]] < n)
    && (forall p :: 0 <= p < |order| ==> ReachedFromEarlier(y, pred, s, order, n, p))
  }

  ghost predicate ReachedFromEarlier(y: seq<int>, pred: seq<int>, s: int, order: seq<int>, n: nat, p: int)
    requires |y| == |pred| == n && Within(order, n) && 0 <= p < |order|
  {
    pred[order[p]] == s || exists q :: 0 <= q < p && y[order[q]] == pred[order[p]]
  }

  ghost predicate TreeTight(cost: Matrix, v: seq<real>, pred: seq<int>, order: seq<int>)
    requires Square(cost, |v|) && |pred| == |v| && Within(order, |v|)
  {
    forall p :: 0 <= p < |order| ==> 0 <= pred[order[p]] < |v| && RowMin(cost, v, pred[order[p]], order[p])
  }

  /** The search tree restricted to the scanned columns and the found one. */
  ghost function TreeOrder(c: Search, m: int, final: int): seq<int>
    requires 0 <= m <= |c.cols|
  {
    c.cols[..m] + [final]
  }

  lemma {:induction false} FoundGivesTree(cost: Matrix, v: seq<real>, y: seq<int>, s: int, c: Search, final: int,
                                          m: int, h: int)
    requires Found(cost, v, y, s, c, final, m, h)
    ensures PathTree(y, c.pred, s, TreeOrder(c, m, final), |v|)
  {
    var order, n := TreeOrder(c, m, final), |v|;
    var f :| h <= f < n && c.cols[f] == final;
    forall p | 0 <= p < |order| ensures ReachedFromEarlier(y, c.pred, s, order, n, p) {
      var p0 := if p < m then p else f;
      assert Parented(cost, v, y, s, c, p0, m);
      if c.pred[order[p]] != s {
        var q :| 0 <= q < m && q < p0 && Edge(cost, v, y, s, c, q, order[p]);
        assert order[q] == c.cols[q];
      }
    }
  }

  /** READY prices move by their distance to the final distance D; the others stay. */
  ghost predicate PricesMoved(v: seq<real>, c: Search, ready: int, D: real, w: seq<real>)
    requires Within(c.cols, |v|) && |c.d| == |v| && 0 <= ready <= |c.cols|
  {
    && |w| == |v|
    && (forall p :: 0 <= p < ready ==> w[c.cols[p]] == v[c.cols[p]] + c.d[c.cols[p]] - D)
    && (forall p :: ready <= p < |c.cols| ==> w[c.cols[p]] == v[c.cols[p]])
  }

  /** Every reduced cost in a scanned READY row is at least its own; other rows only see prices fall. */
  lemma {:induction false} MovedPricesKeepMinima(cost: Matrix, v: seq<real>, y: seq<int>, s: int, c: Search, final: int,
                                                 ready: int, h: int, D: real, w: seq<real>)
    requires Settled(cost, v, y, s, c, final, ready, h, D) && PricesMoved(v, c, ready, D, w)
    requires RowsMinimal(cost, v, y)
    ensures RowsMinimal(cost, w, y)
  {
    var n := |v|;
    forall j | 0 <= j < n && 0 <= y[j] < n ensures RowMin(cost, w, y[j], j) {
      var i := y[j];
      var p := Position(c.cols, n, j);
      forall k | 0 <= k < n ensures cost[i][j] - w[j] <= cost[i][k] - w[k] {
        var pk := Position(c.cols, n, k);
        if p < ready {
          assert Relaxed(cost, v, y, s, c, p, n);
          assert c.d[k] <= Via(cost, v, y, s, c, p, k);
        } else {
          assert RowMin(cost, v, i, j);
        }
      }
    }
  }

  lemma {:induction false} MovedPricesTightAtStart(cost: Matrix, v: seq<real>, y: seq<int>, s: int, c: Search,
        final: int,
                                                   ready: int, h: int, D: real, w: seq<real>, j: int)
    requires Settled(cost, v, y, s, c, final, ready, h, D) && PricesMoved(v, c, ready, D, w)
    requires forall k :: 0 <= k < |v| ==> c.d[k] <= cost[s][k] - v[k]
    requires 0 <= j < |v| && c.d[j] <= D && c.d[j] == cost[s][j] - v[j]
    ensures RowMin(cost, w, s, j)
  {
    var n := |v|;
    var p := Position(c.cols, n, j);
    forall k | 0 <= k < n ensures cost[s][j] - w[j] <= cost[s][k] - w[k] {
      var pk := Position(c.cols, n, k);
    }
  }

  lemma {:induction false} MovedPricesTightAtEdge(cost: Matrix, v: seq<real>, y: seq<int>, s: int, c: Search,
        final: int,
                                                  ready: int, h: int, D: real, w: seq<real>, q: int, p: int)
    requires Settled(cost, v, y, s, c, final, ready, h, D) && PricesMoved(v, c, ready, D, w)
    requires RowsMinimal(cost, w, y)
    requires 0 <= q < p < |v| && q < h && c.d[c.cols[p]] <= D
    requires Edge(cost, v, y, s, c, q, c.cols[p])
    ensures RowMin(cost, w, c.pred[c.cols[p]], c.cols[p])
  {
    var i, j, jq := y[c.cols[q]], c.cols[p], c.cols[q];
    assert RowMin(cost, w, i, jq);
    assert cost[i][j] - w[j] == cost[i][jq] - w[jq];
  }

  /** Under the new prices every edge of the search tree lies on a row minimum. */
  lemma {:induction false} TreeIsTight(cost: Matrix, v: seq<real>, y: seq<int>, s: int, c: Search, final: int,
                                       ready: int, m: int, h: int, h': int, D: real, w: seq<real>)
    requires Found(cost, v, y, s, c, final, m, h) && h <= h' && Settled(cost, v, y, s, c, final, ready, h', D)
    requires PricesMoved(v, c, ready, D, w) && RowsMinimal(cost, w, y)
    ensures TreeTight(cost, w, c.pred, TreeOrder(c, m, final))
  {
    var order, n := TreeOrder(c, m, final), |v|;
    var f :| h <= f < n && c.cols[f] == final;
    forall t | 0 <= t < |order| ensures 0 <= c.pred[order[t]] < n && RowMin(cost, w, c.pred[order[t]], order[t]) {
      var p := if t < m then t else f;
      assert c.cols[p] == order[t] && c.d[order[t]] <= D;
      assert Parented(cost, v, y, s, c, p, m);
      if c.pred[order[t]] == s && c.d[order[t]] == cost[s][order[t]] - v[order[t]] {
        MovedPricesTightAtStart(cost, v, y, s, c, final, ready, h', D, w, order[t]);
      } else {
        var q :| 0 <= q < m && q < p && Edge(cost, v, y, s, c, q, order[t]);
        MovedPricesTightAtEdge(cost, v, y, s, c, final, ready, h', D, w, q, p);
      }
    }
  }

  ghost predicate Partial(y: seq<int>, n: nat) {
    |y| == n && forall j :: 0 <= j < n ==> -1 <= y[j] < n
  }

  lemma {:induction false} InitialLevel(cost: Matrix, v: seq<real>, y: seq<int>, s: int, c: Search, n: nat)
    requires Square(cost, n) && |v| == n && 0 <= s < n && Partial(y, n)
    requires |c.cols| == |c.d| == |c.pred| == n
    requires forall j :: 0 <= j < n ==> c.cols[j] == j && c.pred[j] == s && c.d[j] == cost[s][j] - v[j]
    ensures Level(cost, v, y, s, c, 0)
  {
    forall p | 0 <= p < n ensures Parented(cost, v, y, s, c, p, 0) {
      assert c.cols[p] == p;
    }
  }

  /** An unassigned column keeps the search from running out of columns. */
  lemma LevelNotComplete(cost: Matrix, v: seq<real>, y: seq<int>, s: int, c: Search, lo: int, n: nat, u: int)
    requires Structure(cost, v, y, s, c, lo, lo) && |v| == n && 0 <= u < n && y[u] == -1
    ensures lo < n && IsPermutation(c.cols, n)
  {
    var p := Position(c.cols, n, u);
  }

  /** Selecting the closest columns turns a level into a batch. */
  lemma {:induction false} SelectBatch(cost: Matrix, v: seq<real>, y: seq<int>, s: int, c: Search, cols: seq<int>,
                                       lo: int, hi: int)
    requires Level(cost, v, y, s, c, lo) && 0 <= lo < hi <= |v|
    requires IsPermutation(cols, |v|) && cols[..lo] == c.cols[..lo]
    requires SmallestUpTo(c.d, cols, lo, hi, |v|, c.d[cols[lo]])
    ensures Batch(cost, v, y, s, c.(cols := cols), lo, hi, c.d[cols[lo]])
  {
    ReorderKeepsRelaxed(cost, v, y, s, c, cols, lo);
    forall p | 0 <= p < lo ensures cols[p] == c.cols[p] {
      assert cols[..lo][p] == c.cols[..lo][p];
    }
    var q := Position(c.cols, |v|, cols[lo]);
    assert q >= lo;
  }

  lemma {:induction false} FoundInBatch(cost: Matrix, v: seq<real>, y: seq<int>, s: int, c: Search, lo: int, hi: int,
                                        k: int)
    requires Structure(cost, v, y, s, c, lo, lo) && lo <= k < hi <= |v| && y[c.cols[k]] < 0
    ensures Found(cost, v, y, s, c, c.cols[k], lo, lo)
    ensures Batch(cost, v, y, s, c, lo, hi, c.d[c.cols[lo]])
      ==> Settled(cost, v, y, s, c, c.cols[k], lo, hi, c.d[c.cols[lo]]) && AllRelaxed(cost, v, y, s, c, lo)
  {
    if Batch(cost, v, y, s, c, lo, hi, c.d[c.cols[lo]]) {
      assert c.d[c.cols[k]] == c.d[c.cols[lo]];
    }
  }

  lemma FoundAtLo(cost: Matrix, v: seq<real>, y: seq<int>, s: int, c: Search, final: int, m: int, h: int)
    requires Found(cost, v, y, s, c, final, m, h)
    ensures Sized(cost, v, y, s, c) && 0 <= m <= |v|
    ensures forall k :: 0 <= k < |v| ==> 0 <= c.cols[k] < |v|
  {
  }

  /** The last unassigned column among positions lo to hi, or -1. */
  ghost function LastUnassigned(y: seq<int>, cols: seq<int>, lo: nat, hi: nat): (f: int)
    requires Within(cols, |y|) && lo <= hi <= |cols|
    ensures f == -1 ==> forall p :: lo <= p < hi ==> y[cols[p]] >= 0
    ensures f != -1 ==> exists p :: lo <= p < hi && cols[p] == f && y[f] < 0
    decreases hi - lo
  {
    if lo == hi then -1
    else if y[cols[hi - 1]] < 0 then cols[hi - 1]
    else LastUnassigned(y, cols, lo, hi - 1)
  }

  /** Lines 243 to 250 of lapjv.cpp: the next batch, and the last unassigned column in it, if any. */
  method SelectClosest(n: nat, y: array<int>, d: array<real>, cols: array<int>, lo: nat)
    returns (final: int, hi: nat)
    requires d.Length == cols.Length == y.Length == n
    requires cols != y && lo < n && IsPermutation(cols[..], n)
    modifies cols
    ensures lo < hi <= n && IsPermutation(cols[..], n)
    ensures (cols[..], hi) == Closest(d[..], old(cols[..]), lo, lo + 1, lo + 1)
    ensures final == LastUnassigned(y[..], cols[..], lo, hi)
  {
    hi := FindSmallest(n, lo, d, cols);
    final := -1;
    for k := lo to hi
      invariant final == LastUnassigned(y[..], cols[..], lo, k)
    {
      var j := cols[k];
      if y[j] < 0 {
        final := j;
      }
    }
  }

  /** Where the search ended: its arrays, the found column, the READY and the scanned columns, and the end of SCAN. */
  datatype Explored = Explored(c: Search, final: int, nReady: int, m: int, h: int, h': int)

  /** The selection at a level, as a value. */
  ghost function Selected(c: Search, lo: nat): (r: (Search, nat))
    requires |c.cols| == |c.d| && IsPermutation(c.cols, |c.d|) && lo < |c.d|
  {
    var (cols, hi) := Closest(c.d, c.cols, lo, lo + 1, lo + 1);
    (c.(cols := cols), hi)
  }

  lemma {:induction false} SelectedIsRowed(cost: Matrix, v: seq<real>, y: seq<int>, s: int, c: Search, lo: nat)
    requires Rowed(cost, v, y, s, c, lo) && lo < |v|
    ensures var (c', hi) := Selected(c, lo);
      && lo < hi <= |v| && Rowed(cost, v, y, s, c', lo)
      && (LastUnassigned(y, c'.cols, lo, hi) == -1 ==> Rowed(cost, v, y, s, c', hi))
  {
    ClosestAreSmallest(c.d, c.cols, lo, lo + 1, lo + 1, |v|);
    var (c', hi) := Selected(c, lo);
    forall p | 0 <= p < lo ensures c'.cols[p] == c.cols[p] {
      assert c'.cols[..lo][p] == c.cols[..lo][p];
    }
  }

  /** The search from a level on; the head of the loop always finds SCAN empty, so the test of line 242 of
      lapjv.cpp holds. */
  ghost function SearchFrom(cost: Matrix, v: seq<real>, y: seq<int>, s: int, c: Search, lo: nat): Explored
    requires Rowed(cost, v, y, s, c, lo)
    decreases |v| - lo
  {
    if lo == |v| then Explored(c, -1, lo, lo, lo, lo)
    else
      SelectedIsRowed(cost, v, y, s, c, lo);
      var (c', hi) := Selected(c, lo);
      var f := LastUnassigned(y, c'.cols, lo, hi);
      if f != -1 then Explored(c', f, lo, lo, lo, hi)
      else
        var r := ScanBatch(cost, v, y, s, c', lo, hi);
        if r.final != -1 then Explored(r.c, r.final, lo, r.lo, r.hi, r.hi)
        else SearchFrom(cost, v, y, s, r.c, r.lo)
  }

  /** What the search has established when it stops. */
  ghost predicate Ended(cost: Matrix, v: seq<real>, y: seq<int>, s: int, e: Explored) {
    && Found(cost, v, y, s, e.c, e.final, e.m, e.h) && e.h <= e.h'
    && 0 <= e.nReady < |v| && |e.c.cols| == |e.c.d| == |v| && 0 <= e.c.cols[e.nReady] < |v|
    && (RowsMinimal(cost, v, y) ==>
        && Settled(cost, v, y, s, e.c, e.final, e.nReady, e.h', e.c.d[e.c.cols[e.nReady]])
        && AllEarliest(cost, v, y, s, e.c, e.m)
        && (e.m == |v| - 1 ==> AllRelaxed(cost, v, y, s, e.c, e.m)))
  }

  /** A level good enough to search on from. */
  ghost predicate Leveled(cost: Matrix, v: seq<real>, y: seq<int>, s: int, c: Search, lo: int) {
    && Structure(cost, v, y, s, c, lo, lo)
    && (RowsMinimal(cost, v, y) ==> Level(cost, v, y, s, c, lo) && AllEarliest(cost, v, y, s, c, lo))
  }

  lemma {:induction false} SelectedKeepsStructure(cost: Matrix, v: seq<real>, y: seq<int>, s: int, c: Search, lo: nat)
    requires Leveled(cost, v, y, s, c, lo) && lo < |v| && Rowed(cost, v, y, s, c, lo)
    ensures var (c', hi) := Selected(c, lo);
      && lo < hi <= |v| && Structure(cost, v, y, s, c', lo, lo)
      && 0 <= c'.cols[lo] < |c'.d|
      && (RowsMinimal(cost, v, y) ==>
          Batch(cost, v, y, s, c', lo, hi, c'.d[c'.cols[lo]]) && AllEarliest(cost, v, y, s, c', lo))
  {
    ClosestAreSmallest(c.d, c.cols, lo, lo + 1, lo + 1, |v|);
    var (c', hi) := Selected(c, lo);
    ReorderKeepsStructure(cost, v, y, s, c, c'.cols, lo);
    if RowsMinimal(cost, v, y) {
      ReorderKeepsEarliest(cost, v, y, s, c, c'.cols, lo);
      SelectBatch(cost, v, y, s, c, c'.cols, lo, hi);
    }
  }

  lemma {:induction false} EndsAtOnce(cost: Matrix, v: seq<real>, y: seq<int>, s: int, c: Search, lo: nat, hi: nat,
                                      f: int)
    requires Structure(cost, v, y, s, c, lo, lo) && lo < hi <= |v|
    requires exists p :: lo <= p < hi && c.cols[p] == f && y[f] < 0
    requires RowsMinimal(cost, v, y) ==>
      Batch(cost, v, y, s, c, lo, hi, c.d[c.cols[lo]]) && AllEarliest(cost, v, y, s, c, lo)
    ensures Ended(cost, v, y, s, Explored(c, f, lo, lo, lo, hi))
  {
    var k :| lo <= k < hi && c.cols[k] == f && y[f] < 0;
    FoundInBatch(cost, v, y, s, c, lo, hi, k);
    FoundAtLo(cost, v, y, s, c, f, lo, lo);
  }

  lemma {:induction false} EndsInScan(cost: Matrix, v: seq<real>, y: seq<int>, s: int, c: Search, lo: nat, hi: nat)
    requires Structure(cost, v, y, s, c, lo, hi) && lo < hi <= |v| && Rowed(cost, v, y, s, c, hi)
    requires RowsMinimal(cost, v, y) ==>
      Batch(cost, v, y, s, c, lo, hi, c.d[c.cols[lo]]) && AllEarliest(cost, v, y, s, c, lo)
    ensures var r := ScanBatch(cost, v, y, s, c, lo, hi);
      && (r.final == -1 ==> Leveled(cost, v, y, s, r.c, r.lo))
      && (r.final != -1 ==> Ended(cost, v, y, s, Explored(r.c, r.final, lo, r.lo, r.hi, r.hi)))
  {
    var r := ScanBatch(cost, v, y, s, c, lo, hi);
    ScanBatchKeepsStructure(cost, v, y, s, c, lo, hi);
    if RowsMinimal(cost, v, y) {
      var D := c.d[c.cols[lo]];
      BatchStart(cost, v, y, s, c, lo, hi, D);
      ScanBatchKeepsPartway(cost, v, y, s, c, lo, lo, hi, D);
      hide Structure, Level, Batch, Found, RowsMinimal, AllEarliest, ScanBatch;
      if r.final != -1 {
        SettledStart(cost, v, y, s, r.c, r.final, lo, r.hi, D);
      }
    }
    if r.final != -1 {
      FoundAtLo(cost, v, y, s, r.c, r.final, r.lo, r.hi);
    }
  }

  /** With an unassigned column left, the search ends at one, and everything the price update relies on holds. */
  lemma {:induction false} SearchEnds(cost: Matrix, v: seq<real>, y: seq<int>, s: int, c: Search, lo: nat, u: int)
    requires Leveled(cost, v, y, s, c, lo) && Rowed(cost, v, y, s, c, lo) && 0 <= u < |v| && y[u] == -1
    ensures Ended(cost, v, y, s, SearchFrom(cost, v, y, s, c, lo))
    decreases |v| - lo
  {
    LevelNotComplete(cost, v, y, s, c, lo, |v|, u);
    SelectedIsRowed(cost, v, y, s, c, lo);
    SelectedKeepsStructure(cost, v, y, s, c, lo);
    var (c', hi) := Selected(c, lo);
    var f := LastUnassigned(y, c'.cols, lo, hi);
    hide Structure, Batch, Leveled, Rowed, Ended, RowsMinimal, AllEarliest, Selected;
    if f != -1 {
      EndsAtOnce(cost, v, y, s, c', lo, hi, f);
    } else {
      BatchAssigned(cost, v, y, s, c', lo, hi);
      EndsInScan(cost, v, y, s, c', lo, hi);
      var r := ScanBatch(cost, v, y, s, c', lo, hi);
      if r.final == -1 {
        SearchEnds(cost, v, y, s, r.c, r.lo, u);
      }
    }
  }

  /** The arrays before the first round: every column hangs off the start row. */
  ghost function Start(cost: Matrix, v: seq<real>, s: int): (c: Search)
    requires Square(cost, |v|) && 0 <= s < |v|
    ensures |c.cols| == |c.d| == |c.pred| == |v|
    ensures forall j :: 0 <= j < |v| ==> c.cols[j] == j && c.pred[j] == s && c.d[j] == cost[s][j] - v[j]
  {
    Search(seq(|v|, j => j), seq(|v|, j requires 0 <= j < |v| => cost[s][j] - v[j]), seq(|v|, j => s))
  }

  lemma {:induction false} StartIsLeveled(cost: Matrix, v: seq<real>, y: seq<int>, s: int, n: nat)
    requires Square(cost, n) && |v| == n && 0 <= s < n && Partial(y, n)
    ensures Leveled(cost, v, y, s, Start(cost, v, s), 0) && Rowed(cost, v, y, s, Start(cost, v, s), 0)
  {
    var c := Start(cost, v, s);
    InitialLevel(cost, v, y, s, c, n);
    assert AllEarliest(cost, v, y, s, c, 0) by {
      forall j | 0 <= j < n ensures Direct(cost, v, s, c, j) {
      }
    }
  }

  ghost function SearchOf(cost: Matrix, v: seq<real>, y: seq<int>, s: int): Explored
    requires Square(cost, |v|) && 0 <= s < |v| && Partial(y, |v|)
  {
    StartIsLeveled(cost, v, y, s, |v|);
    SearchFrom(cost, v, y, s, Start(cost, v, s), 0)
  }

  /** The search proper: lines 234 to 256 of lapjv.cpp. Returns the found column and where the price update stops. */
  method Explore(n: nat, cost: Matrix, s: int, y: array<int>, v: array<real>, d: array<real>, cols: array<int>,
                 pred: array<int>)
    returns (final: int, nReady: nat)
    requires n >= 1 && Square(cost, n) && 0 <= s < n
    requires d.Length == cols.Length == pred.Length == y.Length == v.Length == n
    requires d != v && cols != pred && cols != y && pred != y
    requires Partial(y[..], n) && exists u :: 0 <= u < n && y[u] == -1
    modifies d, cols, pred
    ensures var e := SearchOf(cost, v[..], y[..], s);
      e.c == Search(cols[..], d[..], pred[..]) && e.final == final && e.nReady == nReady
    ensures Ended(cost, v[..], y[..], s, SearchOf(cost, v[..], y[..], s))
  {
    ghost var u :| 0 <= u < n && y[u] == -1;
    ghost var vs, ys := v[..], y[..];
    for i := 0 to n
      invariant forall j :: 0 <= j < i ==> cols[j] == j && pred[j] == s && d[j] == cost[s][j] - v[j]
    {
      cols[i] := i;
      pred[i] := s;
      d[i] := cost[s][i] - v[i];
    }
    ghost var c := Search(cols[..], d[..], pred[..]);
    assert c == Start(cost, vs, s);
    StartIsLeveled(cost, vs, ys, s, n);
    SearchEnds(cost, vs, ys, s, c, 0, u);
    ghost var all := SearchOf(cost, vs, ys, s);
    var lo: nat := 0;
    final, nReady := -1, 0;
    hide *;
    while final == -1
      invariant lo <= n && c == Search(cols[..], d[..], pred[..])
      invariant final == -1 ==>
        Rowed(cost, vs, ys, s, c, lo) && Leveled(cost, vs, ys, s, c, lo) && SearchFrom(cost, vs, ys, s, c, lo) == all
      invariant final != -1 ==> all.c == c && all.final == final && all.nReady == nReady
      decreases final == -1, n - lo
    {
      SearchStep(cost, vs, ys, s, c, lo, u);
      nReady := lo;
      var hi;
      final, hi := SelectClosest(n, y, d, cols, lo);
      c := Search(cols[..], d[..], pred[..]);
      if final == -1 {
        final, lo := Scan(n, cost, lo, hi, d, cols, pred, y, v, s);
        c := Search(cols[..], d[..], pred[..]);
      }
    }
  }

  lemma SearchStep(cost: Matrix, v: seq<real>, y: seq<int>, s: int, c: Search, lo: nat, u: int)
    requires Leveled(cost, v, y, s, c, lo) && Rowed(cost, v, y, s, c, lo) && 0 <= u < |v| && y[u] == -1
    ensures lo < |v| && IsPermutation(c.cols, |v|) && |c.d| == |v|
    ensures var (cols, hi) := Closest(c.d, c.cols, lo, lo + 1, lo + 1);
      var c' := c.(cols := cols);
      && lo < hi <= |v| && Within(cols, |y|) && |cols| == |v|
      && (var f := LastUnassigned(y, cols, lo, hi);
        if f != -1 then SearchFrom(cost, v, y, s, c, lo) == Explored(c', f, lo, lo, lo, hi)
        else
          && Rowed(cost, v, y, s, c', hi)
          && (var r := ScanBatch(cost, v, y, s, c', lo, hi);
            if r.final != -1 then SearchFrom(cost, v, y, s, c, lo) == Explored(r.c, r.final, lo, r.lo, r.hi, r.hi)
            else
              (&& lo < r.lo <= |v| && Rowed(cost, v, y, s, r.c, r.lo) && Leveled(cost, v, y, s, r.c, r.lo)
               && SearchFrom(cost, v, y, s, c, lo) == SearchFrom(cost, v, y, s, r.c, r.lo))))
  {
    LevelNotComplete(cost, v, y, s, c, lo, |v|, u);
    SelectedIsRowed(cost, v, y, s, c, lo);
    SelectedKeepsStructure(cost, v, y, s, c, lo);
    var (c', hi) := Selected(c, lo);
    hide Structure, Batch, Leveled, Ended, RowsMinimal, AllEarliest;
    if LastUnassigned(y, c'.cols, lo, hi) == -1 {
      BatchAssigned(cost, v, y, s, c', lo, hi);
      EndsInScan(cost, v, y, s, c', lo, hi);
    }
  }

  lemma SettledStart(cost: Matrix, v: seq<real>, y: seq<int>, s: int, c: Search, final: int, ready: int, h: int,
                     D: real)
    requires Settled(cost, v, y, s, c, final, ready, h, D)
    ensures 0 <= ready < |c.cols| && 0 <= c.cols[ready] < |c.d| && c.d[c.cols[ready]] == D
  {
  }

  /** The prices after the first k columns of the order have moved by their distance to D. */
  ghost function MovedPrices(v: seq<real>, c: Search, D: real, k: nat): (w: seq<real>)
    requires Within(c.cols, |v|) && |c.d| == |v| && k <= |c.cols|
    ensures |w| == |v|
  {
    if k == 0 then v
    else
      var w, j := MovedPrices(v, c, D, k - 1), c.cols[k - 1];
      w[j := w[j] + (c.d[j] - D)]
  }

  lemma {:induction false} MovedPricesAreMoved(v: seq<real>, c: Search, D: real, k: nat)
    requires IsPermutation(c.cols, |v|) && |c.d| == |v| && k <= |c.cols|
    ensures PricesMoved(v, c, k, D, MovedPrices(v, c, D, k))
  {
    if k > 0 {
      MovedPricesAreMoved(v, c, D, k - 1);
    }
  }

  /** Lines 258 to 264 of lapjv.cpp: the prices of the READY columns. */
  method MovePrices(n: nat, nReady: nat, d: array<real>, cols: array<int>, v: array<real>, ghost c: Search)
    requires d.Length == cols.Length == v.Length == n && nReady < n && d != v
    requires IsPermutation(cols[..], n) && c.cols == cols[..] && c.d == d[..]
    modifies v
    ensures v[..] == MovedPrices(old(v[..]), c, d[cols[nReady]], nReady)
    ensures PricesMoved(old(v[..]), c, nReady, d[cols[nReady]], v[..])
  {
    ghost var v0 := v[..];
    var mind := d[cols[nReady]];
    MovedPricesAreMoved(v0, c, mind, nReady);
    for k := 0 to nReady
      invariant v[..] == MovedPrices(v0, c, mind, k)
    {
      var j := cols[k];
      v[j] := v[j] + (d[j] - mind);
    }
  }

  /** What one call of `find_path_dense` returns, leaves in the prices, and leaves as predecessors. */
  datatype Path = Path(final: int, v: seq<real>, pred: seq<int>)

  ghost predicate Searchable(cost: Matrix, v: seq<real>, y: seq<int>, s: int) {
    Square(cost, |v|) && 0 <= s < |v| && Partial(y, |v|) && exists u :: 0 <= u < |v| && y[u] == -1
  }

  lemma SearchOfEnds(cost: Matrix, v: seq<real>, y: seq<int>, s: int)
    requires Searchable(cost, v, y, s)
    ensures Ended(cost, v, y, s, SearchOf(cost, v, y, s))
    ensures var e := SearchOf(cost, v, y, s);
      && IsPermutation(e.c.cols, |v|) && |e.c.d| == |e.c.pred| == |v| && 0 <= e.nReady < |v| && 0 <= e.final < |v|
  {
    var u :| 0 <= u < |v| && y[u] == -1;
    StartIsLeveled(cost, v, y, s, |v|);
    SearchEnds(cost, v, y, s, Start(cost, v, s), 0, u);
  }

  /** The cheapest alternating path, by the steps of the program. */
  ghost function PathOf(cost: Matrix, v: seq<real>, y: seq<int>, s: int): (p: Path)
    requires Searchable(cost, v, y, s)
    ensures |p.v| == |p.pred| == |v| && 0 <= p.final < |v|
  {
    SearchOfEnds(cost, v, y, s);
    var e := SearchOf(cost, v, y, s);
    Path(e.final, MovedPrices(v, e.c, e.c.d[e.c.cols[e.nReady]], e.nReady), e.c.pred)
  }

  lemma PricesFall(cost: Matrix, v: seq<real>, y: seq<int>, s: int, c: Search, final: int, ready: int, h: int,
                   D: real, w: seq<real>)
    requires Settled(cost, v, y, s, c, final, ready, h, D) && PricesMoved(v, c, ready, D, w)
    ensures forall j :: 0 <= j < |v| ==> w[j] <= v[j]
    ensures forall j :: 0 <= j < |v| && y[j] < 0 ==> w[j] == v[j]
  {
    forall j | 0 <= j < |v| ensures w[j] <= v[j] && (y[j] < 0 ==> w[j] == v[j]) {
      var p := Position(c.cols, |v|, j);
    }
  }

  /** The tree behind a path: the order its columns were settled in. */
  ghost function OrderOf(cost: Matrix, v: seq<real>, y: seq<int>, s: int): (order: seq<int>)
    requires Searchable(cost, v, y, s)
  {
    SearchOfEnds(cost, v, y, s);
    var e := SearchOf(cost, v, y, s);
    FoundAtLo(cost, v, y, s, e.c, e.final, e.m, e.h);
    TreeOrder(e.c, e.m, e.final)
  }

  lemma {:induction false} FoundPredecessors(cost: Matrix, v: seq<real>, y: seq<int>, s: int, c: Search, final: int,
                                             m: int, h: int, j: int)
    requires Found(cost, v, y, s, c, final, m, h) && 0 <= j < |v|
    ensures 0 <= c.pred[j] < |v| && (c.pred[j] == s || c.pred[j] in y)
  {
    var p := Position(c.cols, |v|, j);
    assert Parented(cost, v, y, s, c, p, m);
  }

  /** Every predecessor is the start row or a row with a column. */
  ghost predicate Predecessors(y: seq<int>, pred: seq<int>, s: int) {
    forall j :: 0 <= j < |pred| ==> 0 <= pred[j] < |pred| && (pred[j] == s || pred[j] in y)
  }

  /** The closest unassigned column, the tree leading to it, and prices under which both the present
      assignment and every tree edge lie on row minima. */
  lemma {:induction false} PathIsTight(cost: Matrix, v: seq<real>, y: seq<int>, s: int)
    requires Searchable(cost, v, y, s)
    ensures var (p, order) := (PathOf(cost, v, y, s), OrderOf(cost, v, y, s));
      && PathTree(y, p.pred, s, order, |v|) && order[|order| - 1] == p.final
      && Predecessors(y, p.pred, s)
      && (RowsMinimal(cost, v, y) ==>
          && RowsMinimal(cost, p.v, y) && TreeTight(cost, p.v, p.pred, order)
          && (forall j :: 0 <= j < |v| ==> p.v[j] <= v[j])
          && (forall j :: 0 <= j < |v| && y[j] < 0 ==> p.v[j] == v[j]))
  {
    SearchOfEnds(cost, v, y, s);
    var e := SearchOf(cost, v, y, s);
    var c, D, w := e.c, e.c.d[e.c.cols[e.nReady]], PathOf(cost, v, y, s).v;
    hide SearchOf, PathTree, TreeTight, RowsMinimal, Found, Settled, PricesMoved, AllEarliest, AllRelaxed;
    FoundGivesTree(cost, v, y, s, c, e.final, e.m, e.h);
    forall j | 0 <= j < |v| ensures 0 <= c.pred[j] < |v| && (c.pred[j] == s || c.pred[j] in y) {
      FoundPredecessors(cost, v, y, s, c, e.final, e.m, e.h, j);
    }
    MovedPricesAreMoved(v, c, D, e.nReady);
    if RowsMinimal(cost, v, y) {
      MovedPricesKeepMinima(cost, v, y, s, c, e.final, e.nReady, e.h', D, w);
      TreeIsTight(cost, v, y, s, c, e.final, e.nReady, e.m, e.h, e.h', D, w);
      PricesFall(cost, v, y, s, c, e.final, e.nReady, e.h', D, w);
    }
  }

  /** `find_path_dense`: the closest unassigned column, the tree leading to it, and prices under which both the
      present assignment and every tree edge lie on row minima. */
  method FindPath(n: nat, cost: Matrix, s: int, y: array<int>, v: array<real>, pred: array<int>)
    returns (final: int)
    requires n >= 1 && Square(cost, n) && 0 <= s < n
    requires pred.Length == y.Length == v.Length == n && pred != y
    requires Searchable(cost, v[..], y[..], s)
    modifies v, pred
    ensures Path(final, v[..], pred[..]) == PathOf(cost, old(v[..]), y[..], s)
    ensures var order := OrderOf(cost, old(v[..]), y[..], s);
      PathTree(y[..], pred[..], s, order, n) && order[|order| - 1] == final
    ensures RowsMinimal(cost, old(v[..]), y[..]) ==>
      RowsMinimal(cost, v[..], y[..]) && TreeTight(cost, v[..], pred[..], OrderOf(cost, old(v[..]), y[..], s))
  {
    var cols := new int[n];
    var d := new real[n];
    var nReady;
    ghost var v0, ys := v[..], y[..];
    SearchOfEnds(cost, v0, ys, s);
    PathIsTight(cost, v0, ys, s);
    hide Ended, PathTree, TreeTight, RowsMinimal, OrderOf, Searchable;
    final, nReady := Explore(n, cost, s, y, v, d, cols, pred);
    MovePrices(n, nReady, d, cols, v, SearchOf(cost, v0, ys, s).c);
  }
}
