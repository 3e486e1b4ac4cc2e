/** Phase three, the search: the Dijkstra pass that finds the cheapest alternating path to an unassigned column. */
module ShortestPath {
  import opened Permutations
  import opened Assignment

  /** The working arrays of one search: column order, tentative distances and predecessor rows. */
  datatype Search = Search(cols: seq<int>, d: seq<real>, pred: seq<int>)

  ghost predicate Sized(cost: Matrix, v: seq<real>, y: seq<int>, s: int, c: Search) {
    var n := |v|;
    && Square(cost, n) && |y| == n && 0 <= s < n
    && (forall j :: 0 <= j < n ==> -1 <= y[j] < n)
    && IsPermutation(c.cols, n) && |c.d| == n && |c.pred| == n
  }

  /** The first hi columns of the order have rows. */
  ghost predicate Rowed(cost: Matrix, v: seq<real>, y: seq<int>, s: int, c: Search, hi: int) {
    && Sized(cost, v, y, s, c) && 0 <= hi <= |v|
    && (forall p :: 0 <= p < hi ==> 0 <= y[c.cols[p]] < |v|)
  }

  /** The cost of reaching column j through the row of the q-th column. */
  ghost function Via(cost: Matrix, v: seq<real>, y: seq<int>, s: int, c: Search, q: int, j: int): real
    requires Sized(cost, v, y, s, c) && 0 <= q < |v| && 0 <= j < |v| && 0 <= y[c.cols[q]] < |v|
  {
    var (i, jq) := (y[c.cols[q]], c.cols[q]);
    cost[i][j] - v[j] - (cost[i][jq] - v[jq] - c.d[jq])
  }

  ghost predicate Edge(cost: Matrix, v: seq<real>, y: seq<int>, s: int, c: Search, q: int, j: int)
    requires Sized(cost, v, y, s, c) && 0 <= q < |v| && 0 <= j < |v|
  {
    && 0 <= y[c.cols[q]] < |v|
    && c.pred[j] == y[c.cols[q]]
    && c.d[j] == Via(cost, v, y, s, c, q, j)
  }

  /** The p-th column was reached from the start row, or from the row of a column scanned before it. */
  ghost predicate Parented(cost: Matrix, v: seq<real>, y: seq<int>, s: int, c: Search, p: int, lo: int)
    requires Sized(cost, v, y, s, c) && 0 <= p < |v| && lo <= |v|
  {
    var j := c.cols[p];
    || (c.pred[j] == s && c.d[j] == cost[s][j] - v[j])
    || exists q :: 0 <= q < lo && q < p && Edge(cost, v, y, s, c, q, j)
  }

  /** READY and SCAN columns have rows, and every column hangs off the search tree. */
  ghost predicate Structure(cost: Matrix, v: seq<real>, y: seq<int>, s: int, c: Search, lo: int, hi: int) {
    && Sized(cost, v, y, s, c) && 0 <= lo <= hi <= |v|
    && (forall p :: 0 <= p < hi ==> 0 <= y[c.cols[p]] < |v|)
    && (forall p :: 0 <= p < |v| ==> Parented(cost, v, y, s, c, p, lo))
    && (forall j :: 0 <= j < |v| ==> c.d[j] <= cost[s][j] - v[j])
  }

  /** Distances are in order: at most D before `ready`, exactly D up to `hi`, at least D beyond. */
  ghost predicate Ordered(d: seq<real>, cols: seq<int>, ready: int, hi: int, D: real)
    requires Within(cols, |d|) && 0 <= ready <= hi <= |cols|
  {
    && (forall p :: 0 <= p < ready ==> d[cols[p]] <= D)
    && (forall p :: ready <= p < hi ==> d[cols[p]] == D)
    && (forall p :: hi <= p < |cols| ==> d[cols[p]] >= D)
  }

  /** No column at a position before `end` can be reached more cheaply through the q-th one. */
  ghost predicate Relaxed(cost: Matrix, v: seq<real>, y: seq<int>, s: int, c: Search, q: int, end: int)
    requires Sized(cost, v, y, s, c) && 0 <= q < |v| && end <= |v| && 0 <= y[c.cols[q]] < |v|
  {
    forall p :: 0 <= p < end ==> c.d[c.cols[p]] <= Via(cost, v, y, s, c, q, c.cols[p])
  }

  ghost predicate AllRelaxed(cost: Matrix, v: seq<real>, y: seq<int>, s: int, c: Search, lo: int)
    requires Sized(cost, v, y, s, c) && lo <= |v|
    requires forall p :: 0 <= p < lo ==> 0 <= y[c.cols[p]] < |v|
  {
    forall q :: 0 <= q < lo ==> Relaxed(cost, v, y, s, c, q, |v|)
  }

  // ----- _find_dense -----

  ghost predicate SmallestUpTo(d: seq<real>, cols: seq<int>, lo: int, hi: int, end: int, min: real)
    requires Within(cols, |d|) && 0 <= lo <= hi <= end <= |cols|
  {
    && (forall p :: lo <= p < hi ==> d[cols[p]] == min)
    && (forall p :: hi <= p < end ==> d[cols[p]] > min)
  }

  lemma SwapKeepsPermutation(c: seq<int>, n: nat, k: int, h: int)
    requires IsPermutation(c, n) && 0 <= h < n && 0 <= k < n
    ensures IsPermutation(c[k := c[h]][h := c[k]], n)
  {
  }

  /** The selection from position k on: the column order, and the end of its segment of closest columns. */
  ghost function Closest(d: seq<real>, cols: seq<int>, lo: nat, hi: nat, k: nat): (seq<int>, nat)
    requires Within(cols, |d|) && lo < hi <= k <= |cols|
    decreases |cols| - k
  {
    if k == |cols| then (cols, hi)
    else if d[cols[k]] <= d[cols[lo]] then
      var h := if d[cols[k]] < d[cols[lo]] then lo else hi;
      Closest(d, cols[k := cols[h]][h := cols[k]], lo, h + 1, k + 1)
    else Closest(d, cols, lo, hi, k + 1)
  }

  lemma {:induction false} ClosestAreSmallest(d: seq<real>, cols: seq<int>, lo: nat, hi: nat, k: nat, n: nat)
    requires |d| == n && IsPermutation(cols, n) && lo < hi <= k <= n
    requires SmallestUpTo(d, cols, lo, hi, k, d[cols[lo]])
    ensures var (r, h) := Closest(d, cols, lo, hi, k);
      && lo < h <= n && IsPermutation(r, n) && r[..lo] == cols[..lo] && SmallestUpTo(d, r, lo, h, n, d[r[lo]])
    decreases n - k
  {
    if k < n {
      if d[cols[k]] <= d[cols[lo]] {
        var h := if d[cols[k]] < d[cols[lo]] then lo else hi;
        SwapKeepsPermutation(cols, n, k, h);
        ClosestAreSmallest(d, cols[k := cols[h]][h := cols[k]], lo, h + 1, k + 1, n);
      } else {
        ClosestAreSmallest(d, cols, lo, hi, k + 1, n);
      }
    }
  }

  /** `_find_dense`. */
  method FindSmallest(n: nat, lo: nat, d: array<real>, cols: array<int>) returns (hi: nat)
    requires d.Length == cols.Length == n && lo < n
    requires IsPermutation(cols[..], n)
    modifies cols
    ensures (cols[..], hi) == Closest(d[..], old(cols[..]), lo, lo + 1, lo + 1)
    ensures lo < hi <= n
    ensures IsPermutation(cols[..], n) && cols[..lo] == old(cols[..lo])
    ensures SmallestUpTo(d[..], cols[..], lo, hi, n, d[cols[lo]])
  {
    ghost var all := Closest(d[..], cols[..], lo, lo + 1, lo + 1);
    ClosestAreSmallest(d[..], cols[..], lo, lo + 1, lo + 1, n);
    hi := lo + 1;
    var mind := d[cols[lo]];
    for k := lo + 1 to n
      invariant lo < hi <= k && Within(cols[..], n) && mind == d[cols[lo]]
      invariant Closest(d[..], cols[..], lo, hi, k) == all
    {
      var j := cols[k];
      ghost var before := cols[..];
      if d[j] <= mind {
        if d[j] < mind {
          hi := lo;
          mind := d[j];
        }
        cols[k] := cols[hi];
        cols[hi] := j;
        hi := hi + 1;
        assert cols[..] == before[k := before[hi - 1]][hi - 1 := before[k]];
      }
    }
  }

  /** Reordering the columns beyond `lo` leaves the search tree as it is. */
  lemma {:induction false} ReorderKeepsStructure(cost: Matrix, v: seq<real>, y: seq<int>, s: int, c: Search,
        cols: seq<int>, lo: int)
    requires Structure(cost, v, y, s, c, lo, lo)
    requires IsPermutation(cols, |v|) && cols[..lo] == c.cols[..lo]
    ensures Structure(cost, v, y, s, c.(cols := cols), lo, lo)
  {
    var c', n := c.(cols := cols), |v|;
    forall q | 0 <= q < lo ensures cols[q] == c.cols[q] {
      assert cols[..lo][q] == c.cols[..lo][q];
    }
    forall p | 0 <= p < n ensures Parented(cost, v, y, s, c', p, lo) {
      var p0 := Position(c.cols, n, cols[p]);
      assert p0 < lo ==> cols[p0] == cols[p];
      assert p < lo ==> c.cols[p] == cols[p];
      assert Parented(cost, v, y, s, c, p0, lo);
      if !(c.pred[cols[p]] == s && c.d[cols[p]] == cost[s][cols[p]] - v[cols[p]]) {
        var q :| 0 <= q < lo && q < p0 && Edge(cost, v, y, s, c, q, cols[p]);
        assert Edge(cost, v, y, s, c', q, cols[p]);
      }
    }
  }

  lemma {:induction false} ReorderKeepsRelaxed(cost: Matrix, v: seq<real>, y: seq<int>, s: int, c: Search,
                                               cols: seq<int>, lo: int)
    requires Structure(cost, v, y, s, c, lo, lo) && AllRelaxed(cost, v, y, s, c, lo)
    requires IsPermutation(cols, |v|) && cols[..lo] == c.cols[..lo]
    ensures Structure(cost, v, y, s, c.(cols := cols), lo, lo)
    ensures AllRelaxed(cost, v, y, s, c.(cols := cols), lo)
  {
    ReorderKeepsStructure(cost, v, y, s, c, cols, lo);
    var c', n := c.(cols := cols), |v|;
    forall q | 0 <= q < lo ensures Relaxed(cost, v, y, s, c', q, n) {
      assert cols[..lo][q] == c.cols[..lo][q];
      forall p | 0 <= p < n ensures c'.d[cols[p]] <= Via(cost, v, y, s, c', q, cols[p]) {
        var p0 := Position(c.cols, n, cols[p]);
        assert Relaxed(cost, v, y, s, c, q, n);
      }
    }
  }

  // ----- _scan_dense -----

  /** What holds while the column before `lo` is being scanned and the columns before position k are done. */
  ghost predicate Scanning(cost: Matrix, v: seq<real>, y: seq<int>, s: int, c: Search, ready: int, lo: int, hi: int,
                           k: int, D: real)
  {
    && Structure(cost, v, y, s, c, lo, hi) && 0 <= ready < lo && hi <= k <= |v|
    && Ordered(c.d, c.cols, ready, hi, D)
    && AllRelaxed(cost, v, y, s, c, lo - 1)
    && Relaxed(cost, v, y, s, c, lo - 1, k)
  }

  lemma {:induction false} ViaAtLeast(cost: Matrix, v: seq<real>, y: seq<int>, s: int, c: Search, q: int, j: int)
    requires Sized(cost, v, y, s, c) && RowsMinimal(cost, v, y)
    requires 0 <= q < |v| && 0 <= j < |v| && 0 <= y[c.cols[q]] < |v|
    ensures Via(cost, v, y, s, c, q, j) >= c.d[c.cols[q]]
  {
    assert RowMin(cost, v, y[c.cols[q]], c.cols[q]);
  }

  lemma {:induction false} StartColumnStructure(cost: Matrix, v: seq<real>, y: seq<int>, s: int, c: Search, lo: int,
                                                hi: int)
    requires Structure(cost, v, y, s, c, lo, hi) && lo < hi
    ensures Structure(cost, v, y, s, c, lo + 1, hi)
  {
    var next := lo + 1;
    forall p | 0 <= p < |v| ensures Parented(cost, v, y, s, c, p, next) {
      assert Parented(cost, v, y, s, c, p, lo);
    }
  }

  lemma {:induction false} StartColumn(cost: Matrix, v: seq<real>, y: seq<int>, s: int, c: Search, ready: int,
                                       lo: int, hi: int, D: real)
    requires Partway(cost, v, y, s, c, ready, lo, hi, D) && lo < hi && RowsMinimal(cost, v, y)
    ensures Scanning(cost, v, y, s, c, ready, lo + 1, hi, hi, D)
    ensures 0 <= c.cols[lo] < |c.d| && c.d[c.cols[lo]] == D
  {
    StartColumnStructure(cost, v, y, s, c, lo, hi);
    forall p | 0 <= p < hi ensures c.d[c.cols[p]] <= Via(cost, v, y, s, c, lo, c.cols[p]) {
      ViaAtLeast(cost, v, y, s, c, lo, c.cols[p]);
    }
  }

  ghost function Improve(c: Search, j: int, dist: real, i: int): Search
    requires 0 <= j < |c.d| && 0 <= j < |c.pred|
  {
    c.(d := c.d[j := dist], pred := c.pred[j := i])
  }

  /** Shortening the distance of an unscanned column through the column being scanned. */
  lemma {:induction false} ImproveKeepsStructure(cost: Matrix, v: seq<real>, y: seq<int>, s: int, c: Search, lo: int,
        hi: int, k: int)
    requires Structure(cost, v, y, s, c, lo, hi) && 1 <= lo && hi <= k < |v|
    requires Via(cost, v, y, s, c, lo - 1, c.cols[k]) < c.d[c.cols[k]]
    ensures var (j, i) := (c.cols[k], y[c.cols[lo - 1]]);
      Structure(cost, v, y, s, Improve(c, j, Via(cost, v, y, s, c, lo - 1, j), i), lo, hi)
  {
    var j := c.cols[k];
    var c' := Improve(c, j, Via(cost, v, y, s, c, lo - 1, j), y[c.cols[lo - 1]]);
    forall p | 0 <= p < |v| ensures Parented(cost, v, y, s, c', p, lo) {
      assert Parented(cost, v, y, s, c, p, lo);
      var jp := c.cols[p];
      if p == k {
        assert Edge(cost, v, y, s, c', lo - 1, j);
      } else if !(c.pred[jp] == s && c.d[jp] == cost[s][jp] - v[jp]) {
        var q :| 0 <= q < lo && q < p && Edge(cost, v, y, s, c, q, jp);
        assert Edge(cost, v, y, s, c', q, jp);
      }
    }
  }

  lemma {:induction false} ImproveKeepsRelaxed(cost: Matrix, v: seq<real>, y: seq<int>, s: int, c: Search, j: int,
                                               dist: real, i: int, q: int, end: int)
    requires Sized(cost, v, y, s, c) && 0 <= q < |v| && 0 <= j < |v| && end <= |v| && 0 <= y[c.cols[q]] < |v|
    requires c.cols[q] != j && dist < c.d[j] && Relaxed(cost, v, y, s, c, q, end)
    ensures Relaxed(cost, v, y, s, Improve(c, j, dist, i), q, end)
  {
    var c' := Improve(c, j, dist, i);
    forall p | 0 <= p < end ensures c'.d[c'.cols[p]] <= Via(cost, v, y, s, c', q, c'.cols[p]) {
      assert c.d[c.cols[p]] <= Via(cost, v, y, s, c, q, c.cols[p]);
    }
  }

  lemma {:induction false} ImproveColumn(cost: Matrix, v: seq<real>, y: seq<int>, s: int, c: Search, ready: int,
                                         lo: int, hi: int, k: int, D: real)
    requires Scanning(cost, v, y, s, c, ready, lo, hi, k, D) && k < |v| && RowsMinimal(cost, v, y)
    requires Via(cost, v, y, s, c, lo - 1, c.cols[k]) < c.d[c.cols[k]]
    ensures var (j, i) := (c.cols[k], y[c.cols[lo - 1]]);
      Scanning(cost, v, y, s, Improve(c, j, Via(cost, v, y, s, c, lo - 1, j), i), ready, lo, hi, k + 1, D)
  {
    var j, i, dist := c.cols[k], y[c.cols[lo - 1]], Via(cost, v, y, s, c, lo - 1, c.cols[k]);
    ImproveKeepsStructure(cost, v, y, s, c, lo, hi, k);
    ViaAtLeast(cost, v, y, s, c, lo - 1, j);
    forall q | 0 <= q < lo - 1 ensures Relaxed(cost, v, y, s, Improve(c, j, dist, i), q, |v|) {
      ImproveKeepsRelaxed(cost, v, y, s, c, j, dist, i, q, |v|);
    }
    ImproveKeepsRelaxed(cost, v, y, s, c, j, dist, i, lo - 1, k);
  }

  ghost function Promote(c: Search, k: int, h: int): Search
    requires 0 <= k < |c.cols| && 0 <= h < |c.cols|
  {
    c.(cols := c.cols[k := c.cols[h]][h := c.cols[k]])
  }

  /** Moving an assigned column from position k to the end of the SCAN segment. */
  lemma {:induction false} PromoteKeepsStructure(cost: Matrix, v: seq<real>, y: seq<int>, s: int, c: Search, lo: int,
        hi: int, k: int)
    requires Structure(cost, v, y, s, c, lo, hi) && hi <= k < |v| && 0 <= y[c.cols[k]] < |v|
    ensures Structure(cost, v, y, s, Promote(c, k, hi), lo, hi + 1)
  {
    SwapKeepsPermutation(c.cols, |v|, k, hi);
    var c' := Promote(c, k, hi);
    forall p | 0 <= p < |v| ensures Parented(cost, v, y, s, c', p, lo) {
      var p0 := if p == k then hi else if p == hi then k else p;
      assert Parented(cost, v, y, s, c, p0, lo);
      var j := c'.cols[p];
      if !(c.pred[j] == s && c.d[j] == cost[s][j] - v[j]) {
        var q :| 0 <= q < lo && q < p0 && Edge(cost, v, y, s, c, q, j);
        assert Edge(cost, v, y, s, c', q, j);
      }
    }
  }

  lemma {:induction false} PromoteKeepsRelaxed(cost: Matrix, v: seq<real>, y: seq<int>, s: int, c: Search, q: int,
                                               hi: int, k: int, end: int)
    requires Sized(cost, v, y, s, c) && 0 <= q < hi <= k < end <= |v| && 0 <= y[c.cols[q]] < |v|
    requires Sized(cost, v, y, s, Promote(c, k, hi))
    requires Relaxed(cost, v, y, s, c, q, end)
    ensures Relaxed(cost, v, y, s, Promote(c, k, hi), q, end)
  {
    var c' := Promote(c, k, hi);
    forall p | 0 <= p < end ensures c'.d[c'.cols[p]] <= Via(cost, v, y, s, c', q, c'.cols[p]) {
      var p0 := if p == k then hi else if p == hi then k else p;
      assert c.d[c.cols[p0]] <= Via(cost, v, y, s, c, q, c.cols[p0]);
    }
  }

  lemma {:induction false} PromoteColumn(cost: Matrix, v: seq<real>, y: seq<int>, s: int, c: Search, ready: int,
                                         lo: int, hi: int, k: int, D: real)
    requires Scanning(cost, v, y, s, c, ready, lo, hi, k + 1, D) && hi <= k < |v|
    requires 0 <= y[c.cols[k]] < |v| && c.d[c.cols[k]] == D
    ensures Scanning(cost, v, y, s, Promote(c, k, hi), ready, lo, hi + 1, k + 1, D)
  {
    PromoteKeepsStructure(cost, v, y, s, c, lo, hi, k);
    forall q | 0 <= q < lo - 1 ensures Relaxed(cost, v, y, s, Promote(c, k, hi), q, |v|) {
      PromoteKeepsRelaxed(cost, v, y, s, c, q, hi, k, |v|);
    }
    PromoteKeepsRelaxed(cost, v, y, s, c, lo - 1, hi, k, k + 1);
  }

  /** The found column is unassigned, at the current distance, and hangs off the scanned part of the tree. */
  ghost predicate Found(cost: Matrix, v: seq<real>, y: seq<int>, s: int, c: Search, final: int, m: int, h: int) {
    && Structure(cost, v, y, s, c, m, h)
    && exists p :: h <= p < |v| && c.cols[p] == final && y[final] < 0
  }

  /** Distances when the search stops: what the price update relies on. */
  ghost predicate Settled(cost: Matrix, v: seq<real>, y: seq<int>, s: int, c: Search, final: int, ready: int, h: int,
                          D: real)
  {
    && Sized(cost, v, y, s, c) && 0 <= ready <= h <= |v| && ready < |v|
    && (forall p :: 0 <= p < ready ==> 0 <= y[c.cols[p]] < |v|)
    && Ordered(c.d, c.cols, ready, h, D)
    && AllRelaxed(cost, v, y, s, c, ready)
    && 0 <= final < |v| && c.d[final] == D && c.d[c.cols[ready]] == D
  }

  lemma ScanFacts(cost: Matrix, v: seq<real>, y: seq<int>, s: int, c: Search, hi: int)
    requires Rowed(cost, v, y, s, c, hi)
    ensures Sized(cost, v, y, s, c)
    ensures forall k :: 0 <= k < |v| ==> 0 <= c.cols[k] < |v|
    ensures forall k :: 0 <= k < hi ==> 0 <= y[c.cols[k]] < |v|
    ensures forall j, k :: 0 <= j < hi <= k < |v| ==> c.cols[j] != c.cols[k]
  {
  }

  /** The search stops at position k, whose column has just been reached at the current distance. */
  lemma StopAt(cost: Matrix, v: seq<real>, y: seq<int>, s: int, c: Search, ready: int, lo: int, hi: int, k: int,
               D: real)
    requires Structure(cost, v, y, s, c, lo, hi) && hi <= k < |v| && y[c.cols[k]] < 0
    ensures Found(cost, v, y, s, c, c.cols[k], lo, hi)
    ensures Scanning(cost, v, y, s, c, ready, lo, hi, k + 1, D) && c.d[c.cols[k]] == D
      ==> Settled(cost, v, y, s, c, c.cols[k], ready, hi, D)
  {
    if Scanning(cost, v, y, s, c, ready, lo, hi, k + 1, D) && c.d[c.cols[k]] == D {
      assert ready < hi;
    }
  }

  /** One step of the scan as a value: the search state and the end of SCAN after column position k. */
  ghost function Next(cost: Matrix, v: seq<real>, y: seq<int>, s: int, c: Search, lo: int, hi: int,
                      k: int): (Search, int)
    requires Rowed(cost, v, y, s, c, hi) && 1 <= lo <= hi <= k < |v|
  {
    var j, dist := c.cols[k], Via(cost, v, y, s, c, lo - 1, c.cols[k]);
    if dist < c.d[j] then
      var c' := Improve(c, j, dist, y[c.cols[lo - 1]]);
      if dist == c.d[c.cols[lo - 1]] && y[j] >= 0 then (Promote(c', k, hi), hi + 1) else (c', hi)
    else (c, hi)
  }

  ghost predicate Stops(cost: Matrix, v: seq<real>, y: seq<int>, s: int, c: Search, lo: int, hi: int, k: int)
    requires Rowed(cost, v, y, s, c, hi) && 1 <= lo <= hi <= k < |v|
  {
    var j, dist := c.cols[k], Via(cost, v, y, s, c, lo - 1, c.cols[k]);
    dist < c.d[j] && dist == c.d[c.cols[lo - 1]] && y[j] < 0
  }

  lemma {:induction false} NextIsRowed(cost: Matrix, v: seq<real>, y: seq<int>, s: int, c: Search, lo: int, hi: int,
                                       k: int)
    requires Rowed(cost, v, y, s, c, hi) && 1 <= lo <= hi <= k < |v|
    ensures var (c', h) := Next(cost, v, y, s, c, lo, hi, k);
      hi <= h <= k + 1 && Rowed(cost, v, y, s, c', h) && c'.cols[..hi] == c.cols[..hi]
  {
    SwapKeepsPermutation(c.cols, |v|, k, hi);
  }

  lemma {:induction false} NextKeepsStructure(cost: Matrix, v: seq<real>, y: seq<int>, s: int, c: Search, lo: int,
                                              hi: int, k: int)
    requires Structure(cost, v, y, s, c, lo, hi) && 1 <= lo <= hi <= k < |v|
    ensures var (c', h) := Next(cost, v, y, s, c, lo, hi, k);
      && hi <= h <= k + 1 && Structure(cost, v, y, s, c', lo, h)
      && c'.cols[..hi] == c.cols[..hi] && c'.d[c'.cols[lo - 1]] == c.d[c.cols[lo - 1]]
      && (Stops(cost, v, y, s, c, lo, hi, k) ==> c.cols[k] >= 0 && Found(cost, v, y, s, c', c.cols[k], lo, h))
  {
    var j, dist := c.cols[k], Via(cost, v, y, s, c, lo - 1, c.cols[k]);
    if dist < c.d[j] {
      ImproveKeepsStructure(cost, v, y, s, c, lo, hi, k);
      var c' := Improve(c, j, dist, y[c.cols[lo - 1]]);
      if dist == c.d[c.cols[lo - 1]] {
        if y[j] >= 0 {
          PromoteKeepsStructure(cost, v, y, s, c', lo, hi, k);
        } else {
          StopAt(cost, v, y, s, c', 0, lo, hi, k, 0.0);
        }
      }
    }
  }

  lemma {:induction false} NextKeepsScanning(cost: Matrix, v: seq<real>, y: seq<int>, s: int, c: Search, ready: int,
                                             lo: int, hi: int, k: int, D: real)
    requires Scanning(cost, v, y, s, c, ready, lo, hi, k, D) && k < |v| && RowsMinimal(cost, v, y)
    requires c.d[c.cols[lo - 1]] == D
    ensures var (c', h) := Next(cost, v, y, s, c, lo, hi, k);
      && Scanning(cost, v, y, s, c', ready, lo, h, k + 1, D)
      && (Stops(cost, v, y, s, c, lo, hi, k) ==> Settled(cost, v, y, s, c', c.cols[k], ready, h, D))
  {
    var j, dist := c.cols[k], Via(cost, v, y, s, c, lo - 1, c.cols[k]);
    if dist < c.d[j] {
      ImproveColumn(cost, v, y, s, c, ready, lo, hi, k, D);
      var c' := Improve(c, j, dist, y[c.cols[lo - 1]]);
      if dist == D {
        if y[j] >= 0 {
          PromoteColumn(cost, v, y, s, c', ready, lo, hi, k, D);
        } else {
          StopAt(cost, v, y, s, c', ready, lo, hi, k, D);
        }
      }
    }
  }

  /** Lines 192 to 203 of lapjv.cpp: one column k against the row i of the column being scanned. */
  method ScanCell(n: nat, cost: Matrix, i: int, h: real, mind: real, lo: nat, hi: nat, k: nat,
                  d: array<real>, cols: array<int>, pred: array<int>, y: array<int>, v: array<real>, ghost s: int)
    returns (hi': nat, stop: bool)
    requires d.Length == cols.Length == pred.Length == y.Length == v.Length == n
    requires d != v && cols != pred && cols != y && pred != y
    requires 1 <= lo <= hi <= k < n
    requires Rowed(cost, v[..], y[..], s, Search(cols[..], d[..], pred[..]), hi)
    requires i == y[cols[lo - 1]] && mind == d[cols[lo - 1]] && 0 <= i < n
    requires h == cost[i][cols[lo - 1]] - v[cols[lo - 1]] - mind
    modifies d, cols, pred
    ensures (Search(cols[..], d[..], pred[..]), hi')
         == old(Next(cost, v[..], y[..], s, Search(cols[..], d[..], pred[..]), lo, hi, k))
    ensures stop <==> old(Stops(cost, v[..], y[..], s, Search(cols[..], d[..], pred[..]), lo, hi, k))
  {
    hi', stop := hi, false;
    ghost var c := Search(cols[..], d[..], pred[..]);
    ScanFacts(cost, v[..], y[..], s, c, hi);
    var jk := cols[k];
    var cred := cost[i][jk] - v[jk] - h;
    if cred < d[jk] {
      d[jk] := cred;
      pred[jk] := i;
      if cred == mind {
        if y[jk] < 0 {
          stop := true;
        } else {
          cols[k] := cols[hi];
          cols[hi] := jk;
          hi' := hi + 1;
        }
      }
    }
  }

  /** Where a scan stands: the search, the columns scanned, the end of SCAN, and the unassigned column found, or -1. */
  datatype Scanned = Scanned(c: Search, lo: int, hi: int, final: int)

  /** The column just before `lo` against the columns from position k on. */
  ghost function ScanFrom(cost: Matrix, v: seq<real>, y: seq<int>, s: int, c: Search, lo: int, hi: int,
                          k: int): (r: Scanned)
    requires Rowed(cost, v, y, s, c, hi) && 1 <= lo <= hi <= k <= |v|
    ensures hi <= r.hi <= |v| && r.lo == lo && Rowed(cost, v, y, s, r.c, r.hi)
    decreases |v| - k
  {
    if k == |v| then Scanned(c, lo, hi, -1)
    else
      NextIsRowed(cost, v, y, s, c, lo, hi, k);
      var (c', h) := Next(cost, v, y, s, c, lo, hi, k);
      if Stops(cost, v, y, s, c, lo, hi, k) then Scanned(c', lo, h, c.cols[k])
      else ScanFrom(cost, v, y, s, c', lo, h, k + 1)
  }

  lemma {:induction false} ScanFromKeepsStructure(cost: Matrix, v: seq<real>, y: seq<int>, s: int, c: Search, lo: int,
        hi: int, k: int)
    requires Structure(cost, v, y, s, c, lo, hi) && Rowed(cost, v, y, s, c, hi) && 1 <= lo <= hi <= k <= |v|
    ensures var r := ScanFrom(cost, v, y, s, c, lo, hi, k);
      && (r.final == -1 ==> Structure(cost, v, y, s, r.c, lo, r.hi))
      && (r.final != -1 ==> Found(cost, v, y, s, r.c, r.final, lo, r.hi))
    decreases |v| - k
  {
    hide Structure, Found, Next, Stops, Rowed;
    if k < |v| {
      NextIsRowed(cost, v, y, s, c, lo, hi, k);
      NextKeepsStructure(cost, v, y, s, c, lo, hi, k);
      var (c', h) := Next(cost, v, y, s, c, lo, hi, k);
      if !Stops(cost, v, y, s, c, lo, hi, k) {
        ScanFromKeepsStructure(cost, v, y, s, c', lo, h, k + 1);
      }
    }
  }

  lemma {:induction false} ScanFromKeepsScanning(cost: Matrix, v: seq<real>, y: seq<int>, s: int, c: Search,
        ready: int, lo: int, hi: int, k: int, D: real)
    requires Scanning(cost, v, y, s, c, ready, lo, hi, k, D) && RowsMinimal(cost, v, y)
    requires Rowed(cost, v, y, s, c, hi) && 1 <= lo <= hi <= k <= |v|
    requires c.d[c.cols[lo - 1]] == D && AllEarliest(cost, v, y, s, c, lo)
    ensures var r := ScanFrom(cost, v, y, s, c, lo, hi, k);
      && (r.final == -1 ==> Scanning(cost, v, y, s, r.c, ready, lo, r.hi, |v|, D))
      && (r.final != -1 ==> Settled(cost, v, y, s, r.c, r.final, ready, r.hi, D))
      && (r.final != -1 && lo == |v| - 1 ==> AllRelaxed(cost, v, y, s, r.c, lo))
      && AllEarliest(cost, v, y, s, r.c, lo)
    decreases |v| - k
  {
    hide Structure, Scanning, Settled, RowsMinimal, Next, Stops, Rowed, AllEarliest, AllRelaxed;
    if k < |v| {
      NextIsRowed(cost, v, y, s, c, lo, hi, k);
      ScanningHasStructure(cost, v, y, s, c, ready, lo, hi, k, D);
      NextKeepsStructure(cost, v, y, s, c, lo, hi, k);
      NextKeepsScanning(cost, v, y, s, c, ready, lo, hi, k, D);
      NextKeepsEarliest(cost, v, y, s, c, ready, lo, hi, k, D);
      var (c', h) := Next(cost, v, y, s, c, lo, hi, k);
      if Stops(cost, v, y, s, c, lo, hi, k) {
        if lo == |v| - 1 {
          LastScanned(cost, v, y, s, c', ready, lo, h, D);
        }
      } else {
        ScanFromKeepsScanning(cost, v, y, s, c', ready, lo, h, k + 1, D);
      }
    }
  }

  lemma ScanningHasStructure(cost: Matrix, v: seq<real>, y: seq<int>, s: int, c: Search, ready: int, lo: int, hi: int,
                             k: int, D: real)
    requires Scanning(cost, v, y, s, c, ready, lo, hi, k, D)
    ensures Structure(cost, v, y, s, c, lo, hi) && Rowed(cost, v, y, s, c, hi)
  {
  }

  /** The inner loop of `_scan_dense`: the column just before `lo` against all columns from `hi` on. */
  method ScanColumn(n: nat, cost: Matrix, lo: nat, hi: nat, d: array<real>, cols: array<int>, pred: array<int>,
                    y: array<int>, v: array<real>, ghost s: int)
    returns (final: int, hi': nat)
    requires d.Length == cols.Length == pred.Length == y.Length == v.Length == n
    requires d != v && cols != pred && cols != y && pred != y
    requires 1 <= lo <= hi <= n
    requires Rowed(cost, v[..], y[..], s, Search(cols[..], d[..], pred[..]), hi)
    modifies d, cols, pred
    ensures Scanned(Search(cols[..], d[..], pred[..]), lo, hi', final)
         == old(ScanFrom(cost, v[..], y[..], s, Search(cols[..], d[..], pred[..]), lo, hi, hi))
  {
    ghost var vs, ys, c := v[..], y[..], Search(cols[..], d[..], pred[..]);
    ghost var all := ScanFrom(cost, vs, ys, s, c, lo, hi, hi);
    ScanFacts(cost, vs, ys, s, c, hi);
    var j := cols[lo - 1];
    var i := y[j];
    var mind := d[j];
    var h := cost[i][j] - v[j] - mind;
    hi' := hi;
    final := -1;
    hide *;
    for k := hi to n
      invariant hi <= hi' <= k && cols[lo - 1] == j && d[j] == mind
      invariant c == Search(cols[..], d[..], pred[..]) && Rowed(cost, vs, ys, s, c, hi')
      invariant ScanFrom(cost, vs, ys, s, c, lo, hi', k) == all
    {
      ScanFacts(cost, vs, ys, s, c, hi');
      ScanFromStep(cost, vs, ys, s, c, lo, hi', k);
      var jk := cols[k];
      var stop;
      hi', stop := ScanCell(n, cost, i, h, mind, lo, hi', k, d, cols, pred, y, v, s);
      c := Search(cols[..], d[..], pred[..]);
      if stop {
        final := jk;
        return;
      }
    }
    ScanFromEnd(cost, vs, ys, s, c, lo, hi');
  }

  lemma ScanFromStep(cost: Matrix, v: seq<real>, y: seq<int>, s: int, c: Search, lo: int, hi: int, k: int)
    requires Rowed(cost, v, y, s, c, hi) && 1 <= lo <= hi <= k < |v|
    ensures var (c', h) := Next(cost, v, y, s, c, lo, hi, k);
      && Rowed(cost, v, y, s, c', h) && hi <= h <= k + 1
      && |c'.cols| == |c.cols| && |c'.d| == |c.d| && 0 <= c.cols[lo - 1] < |c.d|
      && c'.cols[lo - 1] == c.cols[lo - 1] && c'.d[c.cols[lo - 1]] == c.d[c.cols[lo - 1]]
      && ScanFrom(cost, v, y, s, c, lo, hi, k)
      == if Stops(cost, v, y, s, c, lo, hi, k) then Scanned(c', lo, h, c.cols[k])
         else ScanFrom(cost, v, y, s, c', lo, h, k + 1)
  {
    NextIsRowed(cost, v, y, s, c, lo, hi, k);
  }

  lemma ScanFromEnd(cost: Matrix, v: seq<real>, y: seq<int>, s: int, c: Search, lo: int, hi: int)
    requires Rowed(cost, v, y, s, c, hi) && 1 <= lo <= hi <= |v|
    ensures ScanFrom(cost, v, y, s, c, lo, hi, |v|) == Scanned(c, lo, hi, -1)
  {
  }

  // ----- Which of several equally cheap rows a column hangs off -----

  /** Column j was reached from the row of the q-th column, more cheaply than directly or by any earlier row. */
  ghost predicate EdgeFirst(cost: Matrix, v: seq<real>, y: seq<int>, s: int, c: Search, q: int, j: int)
    requires Rowed(cost, v, y, s, c, q + 1) && 0 <= q < |v| && 0 <= j < |v|
  {
    && Edge(cost, v, y, s, c, q, j) && c.d[j] < cost[s][j] - v[j]
    && (forall p :: 0 <= p < q ==> c.d[j] < Via(cost, v, y, s, c, p, j))
  }

  ghost predicate Direct(cost: Matrix, v: seq<real>, s: int, c: Search, j: int)
    requires Square(cost, |v|) && |c.d| == |c.pred| == |v| && 0 <= s < |v| && 0 <= j < |v|
  {
    c.pred[j] == s && c.d[j] == cost[s][j] - v[j]
  }

  /** Each column hangs off the first row that reached it at its distance. */
  ghost predicate AllEarliest(cost: Matrix, v: seq<real>, y: seq<int>, s: int, c: Search, lo: int) {
    && Rowed(cost, v, y, s, c, lo)
    && (forall j :: 0 <= j < |v| ==>
        Direct(cost, v, s, c, j) || exists q :: 0 <= q < lo && EdgeFirst(cost, v, y, s, c, q, j))
  }

  /** Distances of other columns and the order of unscanned ones do not matter to an edge. */
  lemma {:induction false} EdgeFirstStays(cost: Matrix, v: seq<real>, y: seq<int>, s: int, c: Search, c': Search,
                                          lo: int, q: int, j: int)
    requires Rowed(cost, v, y, s, c, lo) && Rowed(cost, v, y, s, c', lo) && 0 <= q < lo && 0 <= j < |v|
    requires forall p :: 0 <= p < lo ==> c'.cols[p] == c.cols[p] && c'.d[c.cols[p]] == c.d[c.cols[p]]
    requires c'.d[j] == c.d[j] && c'.pred[j] == c.pred[j]
    requires EdgeFirst(cost, v, y, s, c, q, j)
    ensures EdgeFirst(cost, v, y, s, c', q, j)
  {
    forall p | 0 <= p < q ensures c'.d[j] < Via(cost, v, y, s, c', p, j) {
      assert c.d[j] < Via(cost, v, y, s, c, p, j);
    }
  }

  lemma {:induction false} EarliestStays(cost: Matrix, v: seq<real>, y: seq<int>, s: int, c: Search, c': Search,
                                         lo: int, j: int)
    requires Rowed(cost, v, y, s, c, lo) && Rowed(cost, v, y, s, c', lo) && 0 <= j < |v|
    requires forall p :: 0 <= p < lo ==> c'.cols[p] == c.cols[p] && c'.d[c.cols[p]] == c.d[c.cols[p]]
    requires c'.d[j] == c.d[j] && c'.pred[j] == c.pred[j]
    requires AllEarliest(cost, v, y, s, c, lo)
    ensures Direct(cost, v, s, c', j) || exists q :: 0 <= q < lo && EdgeFirst(cost, v, y, s, c', q, j)
  {
    if !Direct(cost, v, s, c, j) {
      var q :| 0 <= q < lo && EdgeFirst(cost, v, y, s, c, q, j);
      EdgeFirstStays(cost, v, y, s, c, c', lo, q, j);
    }
  }

  lemma {:induction false} ReorderKeepsEarliest(cost: Matrix, v: seq<real>, y: seq<int>, s: int, c: Search,
                                                cols: seq<int>, lo: int)
    requires AllEarliest(cost, v, y, s, c, lo) && IsPermutation(cols, |v|) && cols[..lo] == c.cols[..lo]
    ensures AllEarliest(cost, v, y, s, c.(cols := cols), lo)
  {
    var c' := c.(cols := cols);
    forall p | 0 <= p < lo ensures c'.cols[p] == c.cols[p] {
      assert cols[..lo][p] == c.cols[..lo][p];
    }
    forall j | 0 <= j < |v|
      ensures Direct(cost, v, s, c', j) || exists q :: 0 <= q < lo && EdgeFirst(cost, v, y, s, c', q, j)
    {
      EarliestStays(cost, v, y, s, c, c', lo, j);
    }
  }

  lemma {:induction false} StartColumnEarliest(cost: Matrix, v: seq<real>, y: seq<int>, s: int, c: Search, lo: int)
    requires AllEarliest(cost, v, y, s, c, lo) && Rowed(cost, v, y, s, c, lo + 1) && 0 <= lo
    ensures AllEarliest(cost, v, y, s, c, lo + 1)
  {
    forall j | 0 <= j < |v|
      ensures Direct(cost, v, s, c, j) || exists q :: 0 <= q < lo + 1 && EdgeFirst(cost, v, y, s, c, q, j)
    {
      if !Direct(cost, v, s, c, j) {
        var q :| 0 <= q < lo && EdgeFirst(cost, v, y, s, c, q, j);
      }
    }
  }

  /** A strictly shorter distance through the column being scanned is shorter than through any before it. */
  lemma {:induction false} NextKeepsEarliest(cost: Matrix, v: seq<real>, y: seq<int>, s: int, c: Search, ready: int,
                                             lo: int, hi: int, k: int, D: real)
    requires Scanning(cost, v, y, s, c, ready, lo, hi, k, D) && k < |v| && Rowed(cost, v, y, s, c, hi)
    requires AllEarliest(cost, v, y, s, c, lo)
    ensures var (c', h) := Next(cost, v, y, s, c, lo, hi, k);
      AllEarliest(cost, v, y, s, c', lo)
  {
    var (c', h) := Next(cost, v, y, s, c, lo, hi, k);
    var jk, dist := c.cols[k], Via(cost, v, y, s, c, lo - 1, c.cols[k]);
    NextIsRowed(cost, v, y, s, c, lo, hi, k);
    ScanFacts(cost, v, y, s, c, hi);
    assert forall p :: 0 <= p < lo ==> c'.cols[p] == c.cols[p] && c'.d[c.cols[p]] == c.d[c.cols[p]];
    forall j | 0 <= j < |v|
      ensures Direct(cost, v, s, c', j) || exists q :: 0 <= q < lo && EdgeFirst(cost, v, y, s, c', q, j)
    {
      if j == jk && dist < c.d[j] {
        forall p | 0 <= p < lo - 1 ensures c'.d[j] < Via(cost, v, y, s, c', p, j) {
          assert Relaxed(cost, v, y, s, c, p, |v|);
          assert c.d[c.cols[k]] <= Via(cost, v, y, s, c, p, c.cols[k]);
        }
        assert EdgeFirst(cost, v, y, s, c', lo - 1, j);
      } else {
        EarliestStays(cost, v, y, s, c, c', lo, j);
      }
    }
  }

  /** Everything before `at` is no farther than everything from `at` on. */
  ghost predicate SplitAt(d: seq<real>, cols: seq<int>, at: int)
    requires Within(cols, |d|) && 0 <= at <= |cols|
  {
    forall p, q :: 0 <= p < at <= q < |cols| ==> d[cols[p]] <= d[cols[q]]
  }

  /** Between two rounds: all columns before `lo` are scanned and no farther than the rest. */
  ghost predicate Level(cost: Matrix, v: seq<real>, y: seq<int>, s: int, c: Search, lo: int) {
    Structure(cost, v, y, s, c, lo, lo) && AllRelaxed(cost, v, y, s, c, lo) && SplitAt(c.d, c.cols, lo)
  }

  /** A new batch of closest columns has been selected, but none of it scanned. */
  ghost predicate Batch(cost: Matrix, v: seq<real>, y: seq<int>, s: int, c: Search, lo: int, hi: int, D: real) {
    && Structure(cost, v, y, s, c, lo, lo) && lo <= hi <= |v| && lo < |v|
    && AllRelaxed(cost, v, y, s, c, lo) && Ordered(c.d, c.cols, lo, hi, D) && c.d[c.cols[lo]] == D
  }

  lemma {:induction false} BatchAssigned(cost: Matrix, v: seq<real>, y: seq<int>, s: int, c: Search, lo: int, hi: int)
    requires Structure(cost, v, y, s, c, lo, lo) && lo <= hi <= |v|
    requires forall p :: lo <= p < hi ==> y[c.cols[p]] >= 0
    ensures Structure(cost, v, y, s, c, lo, hi)
  {
  }

  /** Between two columns of a batch: those before `lo` are scanned, those up to `hi` are at distance D. */
  ghost predicate Partway(cost: Matrix, v: seq<real>, y: seq<int>, s: int, c: Search, ready: int, lo: int, hi: int,
                          D: real)
  {
    && Structure(cost, v, y, s, c, lo, hi) && 0 <= ready <= lo && ready < hi
    && Ordered(c.d, c.cols, ready, hi, D) && AllRelaxed(cost, v, y, s, c, lo)
  }

  lemma BatchStart(cost: Matrix, v: seq<real>, y: seq<int>, s: int, c: Search, lo: int, hi: int, D: real)
    requires Batch(cost, v, y, s, c, lo, hi, D) && Structure(cost, v, y, s, c, lo, hi) && lo < hi
    ensures Partway(cost, v, y, s, c, lo, lo, hi, D)
  {
  }

  lemma BatchEnd(cost: Matrix, v: seq<real>, y: seq<int>, s: int, c: Search, ready: int, hi: int, D: real)
    requires Partway(cost, v, y, s, c, ready, hi, hi, D)
    ensures Level(cost, v, y, s, c, hi)
  {
  }

  lemma {:induction false} LastScanned(cost: Matrix, v: seq<real>, y: seq<int>, s: int, c: Search, ready: int,
                                       lo: int, hi: int, D: real)
    requires Scanning(cost, v, y, s, c, ready, lo, hi, |v|, D)
    ensures Partway(cost, v, y, s, c, ready, lo, hi, D)
  {
  }

  /** The whole batch from the column at `lo` on, until an unassigned column is reached or the batch is done. */
  ghost function ScanBatch(cost: Matrix, v: seq<real>, y: seq<int>, s: int, c: Search, lo: int, hi: int): (r: Scanned)
    requires Rowed(cost, v, y, s, c, hi) && 0 <= lo <= hi
    ensures lo <= r.lo <= r.hi <= |v| && Rowed(cost, v, y, s, r.c, r.hi)
    ensures r.final == -1 ==> r.lo == r.hi && (lo < hi ==> lo < r.lo)
    decreases |v| - lo
  {
    if lo == hi then Scanned(c, lo, hi, -1)
    else
      var r := ScanFrom(cost, v, y, s, c, lo + 1, hi, hi);
      if r.final != -1 then r else ScanBatch(cost, v, y, s, r.c, r.lo, r.hi)
  }

  lemma {:induction false} ScanBatchKeepsStructure(cost: Matrix, v: seq<real>, y: seq<int>, s: int, c: Search,
        lo: int, hi: int)
    requires Structure(cost, v, y, s, c, lo, hi) && Rowed(cost, v, y, s, c, hi) && 0 <= lo <= hi
    ensures var r := ScanBatch(cost, v, y, s, c, lo, hi);
      && (r.final == -1 ==> Structure(cost, v, y, s, r.c, r.lo, r.lo))
      && (r.final != -1 ==> Found(cost, v, y, s, r.c, r.final, r.lo, r.hi))
    decreases |v| - lo
  {
    hide Structure, Found;
    if lo < hi {
      StartColumnStructure(cost, v, y, s, c, lo, hi);
      ScanFromKeepsStructure(cost, v, y, s, c, lo + 1, hi, hi);
      var r := ScanFrom(cost, v, y, s, c, lo + 1, hi, hi);
      if r.final == -1 {
        ScanBatchKeepsStructure(cost, v, y, s, r.c, lo + 1, r.hi);
      }
    }
  }

  lemma {:induction false} ScanBatchKeepsPartway(cost: Matrix, v: seq<real>, y: seq<int>, s: int, c: Search,
        ready: int, lo: int, hi: int, D: real)
    requires Partway(cost, v, y, s, c, ready, lo, hi, D) && RowsMinimal(cost, v, y) && AllEarliest(cost, v, y, s, c, lo)
    requires Rowed(cost, v, y, s, c, hi) && 0 <= lo <= hi
    ensures var r := ScanBatch(cost, v, y, s, c, lo, hi);
      && (r.final == -1 ==> Level(cost, v, y, s, r.c, r.lo))
      && (r.final != -1 ==> Settled(cost, v, y, s, r.c, r.final, ready, r.hi, D))
      && (r.final != -1 && r.lo == |v| - 1 ==> AllRelaxed(cost, v, y, s, r.c, r.lo))
      && AllEarliest(cost, v, y, s, r.c, r.lo)
    decreases |v| - lo
  {
    hide Structure, Found, Rowed, Partway, Level, Settled, AllEarliest, Scanning, RowsMinimal, AllRelaxed;
    if lo == hi {
      BatchEnd(cost, v, y, s, c, ready, hi, D);
    } else {
      StartColumn(cost, v, y, s, c, ready, lo, hi, D);
      RowedPrefix(cost, v, y, s, c, lo + 1, hi);
      StartColumnEarliest(cost, v, y, s, c, lo);
      ScanFromKeepsScanning(cost, v, y, s, c, ready, lo + 1, hi, hi, D);
      var r := ScanFrom(cost, v, y, s, c, lo + 1, hi, hi);
      if r.final == -1 {
        LastScanned(cost, v, y, s, r.c, ready, lo + 1, r.hi, D);
        ScanBatchKeepsPartway(cost, v, y, s, r.c, ready, lo + 1, r.hi, D);
      }
    }
  }

  lemma RowedPrefix(cost: Matrix, v: seq<real>, y: seq<int>, s: int, c: Search, lo: int, hi: int)
    requires Rowed(cost, v, y, s, c, hi) && 0 <= lo <= hi
    ensures Rowed(cost, v, y, s, c, lo)
  {
  }

  /** `_scan_dense`: scans the whole batch, which may grow; stops early at an unassigned column. */
  method Scan(n: nat, cost: Matrix, lo: nat, hi: nat, d: array<real>, cols: array<int>, pred: array<int>,
              y: array<int>, v: array<real>, ghost s: int)
    returns (final: int, end: nat)
    requires d.Length == cols.Length == pred.Length == y.Length == v.Length == n
    requires d != v && cols != pred && cols != y && pred != y
    requires lo < hi <= n
    requires Rowed(cost, v[..], y[..], s, Search(cols[..], d[..], pred[..]), hi)
    modifies d, cols, pred
    ensures var r := old(ScanBatch(cost, v[..], y[..], s, Search(cols[..], d[..], pred[..]), lo, hi));
      Search(cols[..], d[..], pred[..]) == r.c && final == r.final && end == r.lo
  {
    ghost var vs, ys, c := v[..], y[..], Search(cols[..], d[..], pred[..]);
    ghost var all := ScanBatch(cost, vs, ys, s, c, lo, hi);
    var l, u := lo, hi;
    final := -1;
    hide *;
    while l != u
      invariant l <= u <= n && c == Search(cols[..], d[..], pred[..]) && final == -1
      invariant Rowed(cost, vs, ys, s, c, u) && ScanBatch(cost, vs, ys, s, c, l, u) == all
      decreases n - l
    {
      ScanBatchStep(cost, vs, ys, s, c, l, u);
      l := l + 1;
      final, u := ScanColumn(n, cost, l, u, d, cols, pred, y, v, s);
      c := Search(cols[..], d[..], pred[..]);
      if final != -1 {
        end := l;
        return;
      }
    }
    ScanBatchEnd(cost, vs, ys, s, c, u);
    end := l;
  }

  lemma ScanBatchStep(cost: Matrix, v: seq<real>, y: seq<int>, s: int, c: Search, lo: int, hi: int)
    requires Rowed(cost, v, y, s, c, hi) && 0 <= lo < hi
    ensures var r := ScanFrom(cost, v, y, s, c, lo + 1, hi, hi);
      && lo < r.hi && Rowed(cost, v, y, s, r.c, r.hi)
      && ScanBatch(cost, v, y, s, c, lo, hi) == if r.final != -1 then r else ScanBatch(cost, v, y, s, r.c, lo + 1, r.hi)
  {
  }

  lemma ScanBatchEnd(cost: Matrix, v: seq<real>, y: seq<int>, s: int, c: Search, hi: int)
    requires Rowed(cost, v, y, s, c, hi)
    ensures ScanBatch(cost, v, y, s, c, hi, hi) == Scanned(c, hi, hi, -1)
  {
  }
}
