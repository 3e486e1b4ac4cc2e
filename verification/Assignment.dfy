/** The linear assignment problem: what a solution is, and the dual prices that certify an optimal one. */
module Assignment {
  import opened Permutations

  /** A dense cost matrix; the solver only ever reads it. */
  type Matrix = seq<seq<real>>

  const LARGE: real := 1000000.0

  ghost predicate Square(cost: Matrix, n: nat) {
    |cost| == n && forall i :: 0 <= i < n ==> |cost[i]| == n
  }

  ghost function Chosen(cost: Matrix, p: seq<int>): (r: seq<real>)
    requires Square(cost, |p|) && Within(p, |p|)
    ensures |r| == |p|
    ensures forall i :: 0 <= i < |p| ==> r[i] == cost[i][p[i]]
  {
    seq(|p|, i requires 0 <= i < |p| => cost[i][p[i]])
  }

  ghost function TotalCost(cost: Matrix, p: seq<int>): real
    requires Square(cost, |p|) && Within(p, |p|)
  {
    Sum(Chosen(cost, p))
  }

  /** x[i] is the column of row i and y[j] the row of column j, with nobody left over. */
  ghost predicate MutuallyInverse(x: seq<int>, y: seq<int>, n: nat) {
    && IsPermutation(x, n)
    && IsPermutation(y, n)
    && (forall i :: 0 <= i < n ==> y[x[i]] == i)
    && (forall j :: 0 <= j < n ==> x[y[j]] == j)
  }

  ghost predicate Optimal(cost: Matrix, x: seq<int>, n: nat)
    requires Square(cost, n)
  {
    IsPermutation(x, n) && forall p :: IsPermutation(p, n) ==> TotalCost(cost, x) <= TotalCost(cost, p)
  }

  // ----- Partial assignments: y is the truth, x may be stale for a row that is still free -----

  ghost predicate Consistent(x: seq<int>, y: seq<int>, n: nat) {
    && |x| == n && |y| == n
    && (forall j :: 0 <= j < n ==> -1 <= y[j] < n)
    && (forall j :: 0 <= j < n && y[j] >= 0 ==> x[y[j]] == j)
  }

  /** The rows in `free` are exactly the rows no column points to, each listed once. */
  ghost predicate FreeRows(free: seq<int>, y: seq<int>, n: nat) {
    && Distinct(free) && Within(free, n)
    && (forall i :: 0 <= i < n ==> (i in free <==> i !in y))
  }

  ghost predicate RowMin(cost: Matrix, v: seq<real>, i: int, j: int)
    requires Square(cost, |v|) && 0 <= i < |v| && 0 <= j < |v|
  {
    forall k :: 0 <= k < |v| ==> cost[i][j] - v[j] <= cost[i][k] - v[k]
  }

  /** Complementary slackness: each assigned row sits on a minimum of cost minus price. */
  ghost predicate RowsMinimal(cost: Matrix, v: seq<real>, y: seq<int>)
    requires Square(cost, |v|) && |y| == |v|
  {
    forall j :: 0 <= j < |y| && 0 <= y[j] < |v| ==> RowMin(cost, v, y[j], j)
  }

  /** The entries the sentinel LARGE is safe for: below it, with column spreads under half of it. */
  ghost predicate WithinSentinel(cost: Matrix, n: nat)
    requires Square(cost, n)
  {
    && (forall i, j :: 0 <= i < n && 0 <= j < n ==> cost[i][j] < LARGE)
    && (forall i, k, j :: 0 <= i < n && 0 <= k < n && 0 <= j < n ==> 2.0 * (cost[i][j] - cost[k][j]) < LARGE)
  }

  ghost predicate AtEntry(cost: Matrix, v: seq<real>, j: int)
    requires Square(cost, |v|) && 0 <= j < |v|
  {
    exists i :: 0 <= i < |v| && v[j] == cost[i][j]
  }

  /** Prices only fall from the column minima on, and that of a column without a row has not moved yet. */
  ghost predicate Capped(cost: Matrix, v: seq<real>, y: seq<int>)
    requires Square(cost, |v|) && |y| == |v|
  {
    && (forall i, j :: 0 <= i < |v| && 0 <= j < |v| ==> v[j] <= cost[i][j])
    && (forall j :: 0 <= j < |v| && y[j] < 0 ==> AtEntry(cost, v, j))
  }

  /** What every phase of the solver keeps about rows, columns and prices, for costs within the sentinel. */
  ghost predicate Priced(cost: Matrix, v: seq<real>, y: seq<int>)
    requires Square(cost, |v|) && |y| == |v|
  {
    RowsMinimal(cost, v, y) && Capped(cost, v, y)
  }

  /** The arrays the phases hand on: assignment from both sides, prices, and the list of free rows. */
  datatype State = State(x: seq<int>, y: seq<int>, v: seq<real>, free: seq<int>)

  /** Sizes and index ranges only: what running a phase needs, whatever the state means. */
  ghost predicate Shaped(c: State, n: nat) {
    && |c.x| == |c.y| == |c.v| == n && Within(c.free, n)
    && (forall j :: 0 <= j < n ==> -1 <= c.y[j] < n)
  }

  /** A partial assignment whose free rows are listed. */
  ghost predicate Sound(c: State, n: nat) {
    |c.v| == n && Consistent(c.x, c.y, n) && FreeRows(c.free, c.y, n)
  }

  lemma {:induction false} FreeRowGivesFreeColumn(x: seq<int>, y: seq<int>, n: nat, f: int)
    requires Consistent(x, y, n) && 0 <= f < n && f !in y
    ensures exists j :: 0 <= j < n && y[j] == -1
  {
    if forall j :: 0 <= j < n ==> y[j] != -1 {
      assert Distinct(y) by {
        forall a, b | 0 <= a < b < n ensures y[a] != y[b] {
          assert x[y[a]] == a && x[y[b]] == b;
        }
      }
      PigeonHole(y, n);
    }
  }

  /** With no free row left, x and y are inverse permutations. */
  lemma {:induction false} NoFreeRows(x: seq<int>, y: seq<int>, n: nat)
    requires Consistent(x, y, n)
    requires forall i :: 0 <= i < n ==> i in y
    ensures MutuallyInverse(x, y, n)
  {
    forall i | 0 <= i < n ensures 0 <= x[i] < n && y[x[i]] == i {
      assert i in y;
      var j :| 0 <= j < n && y[j] == i;
    }
    PigeonHole(x, n);
    forall j | 0 <= j < n ensures 0 <= y[j] && x[y[j]] == j {
      assert j in x;
    }
    assert Distinct(y) by {
      forall a, b | 0 <= a < b < n ensures y[a] != y[b] {
        assert x[y[a]] == a && x[y[b]] == b;
      }
    }
  }

  /** Weak duality: prices that put every row on its minimum certify the assignment as optimal. */
  lemma {:induction false} PricesCertifyOptimality(cost: Matrix, v: seq<real>, x: seq<int>, y: seq<int>, n: nat)
    requires Square(cost, n) && |v| == n
    requires MutuallyInverse(x, y, n)
    requires RowsMinimal(cost, v, y)
    ensures Optimal(cost, x, n)
  {
    forall p | IsPermutation(p, n) ensures TotalCost(cost, x) <= TotalCost(cost, p) {
      var cx, cp := Chosen(cost, x), Chosen(cost, p);
      var vx, vp := Compose(v, x), Compose(v, p);
      SumOfPermutation(v, x);
      SumOfPermutation(v, p);
      var left := seq(n, i requires 0 <= i < n => cx[i] + vp[i]);
      var right := seq(n, i requires 0 <= i < n => cp[i] + vx[i]);
      SumPlus(cx, vp, left);
      SumPlus(cp, vx, right);
      forall i | 0 <= i < n ensures left[i] <= right[i] {
        assert RowMin(cost, v, y[x[i]], x[i]);
      }
      SumMonotone(left, right);
    }
  }
}
