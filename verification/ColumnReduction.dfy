/** Phase one of the solver: column reduction and reduction transfer, in place. */
module ColumnReduction {
  import opened Permutations
  import opened Assignment

  /** `price` is the least of LARGE and the first `rows` entries of column j, reached in row `row` if below LARGE. */
  ghost predicate IsColumnMin(cost: Matrix, n: nat, j: int, price: real, row: int, rows: int)
    requires Square(cost, n) && 0 <= j < n && 0 <= rows <= n
  {
    && 0 <= row < n
    && (price == LARGE || price == cost[row][j])
    && price <= LARGE
    && (forall i :: 0 <= i < rows ==> price <= cost[i][j])
  }

  datatype Least = Least(price: real, row: int)

  /** The scan of the first `rows` entries of column j: the first row attaining the least entry below LARGE. */
  ghost function ColumnLeast(cost: Matrix, j: int, rows: nat): (b: Least)
    requires Square(cost, |cost|) && 0 <= j < |cost| && rows <= |cost|
    ensures 0 <= b.row && (b.row == 0 || b.row < rows)
  {
    if rows == 0 then Least(LARGE, 0)
    else
      var b := ColumnLeast(cost, j, rows - 1);
      if cost[rows - 1][j] < b.price then Least(cost[rows - 1][j], rows - 1) else b
  }

  lemma {:induction false} ColumnLeastIsMin(cost: Matrix, n: nat, j: int, rows: nat)
    requires n >= 1 && Square(cost, n) && 0 <= j < n && rows <= n
    ensures IsColumnMin(cost, n, j, ColumnLeast(cost, j, rows).price, ColumnLeast(cost, j, rows).row, rows)
  {
    if rows > 0 {
      ColumnLeastIsMin(cost, n, j, rows - 1);
    }
  }

  method ColumnMinima(n: nat, cost: Matrix, x: array<int>, y: array<int>, v: array<real>)
    requires n >= 1 && Square(cost, n)
    requires x.Length == y.Length == v.Length == n && x != y
    modifies x, y, v
    ensures forall i :: 0 <= i < n ==> x[i] == -1
    ensures forall j :: 0 <= j < n ==> Least(v[j], y[j]) == ColumnLeast(cost, j, n)
    ensures forall j :: 0 <= j < n ==> IsColumnMin(cost, n, j, v[j], y[j], n)
  {
    for i := 0 to n
      invariant forall k :: 0 <= k < i ==> x[k] == -1 && y[k] == 0 && v[k] == LARGE
    {
      x[i], v[i], y[i] := -1, LARGE, 0;
    }
    for i := 0 to n
      invariant forall k :: 0 <= k < n ==> x[k] == -1
      invariant forall j :: 0 <= j < n ==> Least(v[j], y[j]) == ColumnLeast(cost, j, i)
    {
      for j := 0 to n
        invariant forall k :: 0 <= k < n ==> x[k] == -1
        invariant forall k :: 0 <= k < j ==> Least(v[k], y[k]) == ColumnLeast(cost, k, i + 1)
        invariant forall k :: j <= k < n ==> Least(v[k], y[k]) == ColumnLeast(cost, k, i)
      {
        var c := cost[i][j];
        if c < v[j] {
          v[j] := c;
          y[j] := i;
        }
      }
    }
    forall j | 0 <= j < n ensures IsColumnMin(cost, n, j, v[j], y[j], n) {
      ColumnLeastIsMin(cost, n, j, n);
    }
  }

  /** x and y agree in both directions: no entry of x is stale. */
  ghost predicate Exact(x: seq<int>, y: seq<int>, n: nat) {
    && Consistent(x, y, n)
    && (forall i :: 0 <= i < n && x[i] >= 0 ==> x[i] < n && y[x[i]] == i)
  }

  ghost predicate Indices(x: seq<int>) {
    forall i :: 0 <= i < |x| ==> -1 <= x[i] < |x|
  }

  datatype Columns = Columns(x: seq<int>, y: seq<int>, unique: seq<bool>)

  ghost predicate Even(c: Columns, n: nat) {
    |c.x| == |c.y| == |c.unique| == n
  }

  /** Column j goes to its minimum row if that row has no column yet; otherwise j is released. */
  ghost function AssignColumn(c: Columns, j: int): Columns
    requires Even(c, |c.x|) && 0 <= j < |c.x| && 0 <= c.y[j] < |c.x|
  {
    var i := c.y[j];
    if c.x[i] < 0 then c.(x := c.x[i := j]) else c.(unique := c.unique[i := false], y := c.y[j := -1])
  }

  /** The columns before `j` handled one after the other, the last one first. */
  ghost function AssignBefore(c: Columns, j: nat): (r: Columns)
    requires Even(c, |c.x|) && j <= |c.x| && Indices(c.x)
    requires forall k :: 0 <= k < j ==> 0 <= c.y[k] < |c.x|
    ensures Even(r, |c.x|) && Indices(r.x)
    decreases j
  {
    if j == 0 then c else AssignBefore(AssignColumn(c, j - 1), j - 1)
  }

  /** The columns from `j` on have been handled, last column first, starting from the minimum rows y0. */
  ghost predicate AssignedFrom(c: Columns, y0: seq<int>, n: nat, j: int) {
    && Even(c, n) && |y0| == n && 0 <= j <= n && Within(y0, n)
    && (forall k :: 0 <= k < j ==> c.y[k] == y0[k])
    && (forall k :: j <= k < n ==> c.y[k] == -1 || (c.y[k] == y0[k] && c.x[y0[k]] == k))
    && (forall i :: 0 <= i < n ==> c.x[i] == -1 || (j <= c.x[i] < n && c.y[c.x[i]] == i))
    && (forall k :: j <= k < n ==> c.x[y0[k]] >= k)
    && (forall k :: j <= k < n && c.x[y0[k]] != k ==> !c.unique[y0[k]])
  }

  lemma AssignColumnAdvances(c: Columns, y0: seq<int>, n: nat, j: int)
    requires AssignedFrom(c, y0, n, j) && j >= 1
    ensures AssignedFrom(AssignColumn(c, j - 1), y0, n, j - 1)
  {
  }

  lemma AssignedStart(c: Columns, n: nat)
    requires Even(c, n) && Within(c.y, n) && forall i :: 0 <= i < n ==> c.x[i] == -1
    ensures AssignedFrom(c, c.y, n, n)
  {
  }

  lemma AssignStep(c: Columns, y0: seq<int>, n: nat, j: nat)
    requires AssignedFrom(c, y0, n, j) && j >= 1 && Indices(c.x)
    requires forall k :: 0 <= k < j ==> 0 <= c.y[k] < n
    ensures var d := AssignColumn(c, j - 1);
      && AssignedFrom(d, y0, n, j - 1) && Even(d, n) && Indices(d.x)
      && (forall k :: 0 <= k < j - 1 ==> 0 <= d.y[k] < n)
      && AssignBefore(d, j - 1) == AssignBefore(c, j)
  {
    AssignColumnAdvances(c, y0, n, j);
  }

  /** Each row keeps the last column it is the minimum of; its other columns are released. */
  method AssignColumns(n: nat, x: array<int>, y: array<int>, unique: array<bool>)
    requires n >= 1 && x.Length == y.Length == unique.Length == n && x != y
    requires forall i :: 0 <= i < n ==> x[i] == -1 && unique[i] && 0 <= y[i] < n
    modifies x, y, unique
    ensures AssignedFrom(Columns(x[..], y[..], unique[..]), old(y[..]), n, 0)
    ensures Columns(x[..], y[..], unique[..]) == AssignBefore(old(Columns(x[..], y[..], unique[..])), n)
  {
    ghost var y0, c0 := y[..], Columns(x[..], y[..], unique[..]);
    ghost var c := c0;
    var j := n;
    AssignedStart(c0, n);
    hide *;
    while j > 0
      invariant 0 <= j <= n && c.x == x[..] && c.y == y[..] && c.unique == unique[..]
      invariant Even(c, n) && Indices(c.x)
      invariant forall k :: 0 <= k < j ==> 0 <= c.y[k] < n
      invariant AssignedFrom(c, y0, n, j) && AssignBefore(c, j) == AssignBefore(c0, n)
    {
      AssignStep(c, y0, n, j);
      j := j - 1;
      c := AssignColumn(c, j);
      HandleColumn(n, j, x, y, unique);
    }
  }

  /** Lines 49 to 56 of lapjv.cpp: one column. */
  method HandleColumn(n: nat, j: nat, x: array<int>, y: array<int>, unique: array<bool>)
    requires x.Length == y.Length == unique.Length == n && x != y && j < n && 0 <= y[j] < n
    modifies x, y, unique
    ensures Columns(x[..], y[..], unique[..]) == AssignColumn(old(Columns(x[..], y[..], unique[..])), j)
  {
    var i := y[j];
    if x[i] < 0 {
      x[i] := j;
    } else {
      unique[i] := false;
      y[j] := -1;
    }
  }

  lemma AssignedIsExact(c: Columns, y0: seq<int>, n: nat)
    requires AssignedFrom(c, y0, n, 0)
    ensures Exact(c.x, c.y, n) && Indices(c.x)
    ensures forall j :: 0 <= j < n ==> c.y[j] == -1 || c.y[j] == y0[j]
  {
  }

  /** The least reduced cost of row i over the first `end` columns other than j, capped at LARGE. */
  ghost function SecondBest(cost: Matrix, v: seq<real>, i: int, j: int, end: nat): real
    requires Square(cost, |v|) && 0 <= i < |v| && end <= |v|
  {
    if end == 0 then LARGE
    else
      var rest := SecondBest(cost, v, i, j, end - 1);
      var c := cost[i][end - 1] - v[end - 1];
      if end - 1 != j && c < rest then c else rest
  }

  lemma {:induction false} SecondBestIsLeast(cost: Matrix, v: seq<real>, i: int, j: int, end: nat)
    requires Square(cost, |v|) && 0 <= i < |v| && end <= |v|
    ensures var min := SecondBest(cost, v, i, j, end);
      && min <= LARGE
      && (forall k :: 0 <= k < end && k != j ==> min <= cost[i][k] - v[k])
      && (min == LARGE || exists k :: 0 <= k < end && k != j && min == cost[i][k] - v[k])
  {
    if end > 0 {
      SecondBestIsLeast(cost, v, i, j, end - 1);
    }
  }

  /** The prices after row i has transferred its reduction: nothing moves unless it has exactly one column. */
  ghost function TransferRow(cost: Matrix, v: seq<real>, x: seq<int>, unique: seq<bool>, i: int): (w: seq<real>)
    requires Square(cost, |v|) && |x| == |unique| == |v| && 0 <= i < |v| && Indices(x)
    ensures |w| == |v|
  {
    var j := x[i];
    if j >= 0 && unique[i] then v[j := v[j] - SecondBest(cost, v, i, j, |v|)] else v
  }

  /** The prices after transferring the reduction of the first `end` rows. */
  ghost function Transferred(cost: Matrix, v: seq<real>, x: seq<int>, unique: seq<bool>, end: nat): (w: seq<real>)
    requires Square(cost, |v|) && |x| == |unique| == |v| && end <= |v| && Indices(x)
    ensures |w| == |v|
  {
    if end == 0 then v else TransferRow(cost, Transferred(cost, v, x, unique, end - 1), x, unique, end - 1)
  }

  ghost predicate Untransferred(cost: Matrix, v: seq<real>, x: seq<int>, from: int)
    requires Square(cost, |v|) && |x| == |v| && 0 <= from
    requires Indices(x)
  {
    && (forall i, j :: 0 <= i < |v| && 0 <= j < |v| ==> v[j] <= cost[i][j])
    && (forall i :: from <= i < |x| && x[i] >= 0 ==> v[x[i]] == cost[i][x[i]])
  }

  /** Lowering the price of row i's only column by its second-best reduced cost keeps every row on its minimum. */
  lemma {:induction false} TransferRowKeepsPriced(cost: Matrix, v: seq<real>, x: seq<int>, y: seq<int>,
        unique: seq<bool>, n: nat, i: int)
    requires Square(cost, n) && |v| == |unique| == |x| == |y| == n && Exact(x, y, n) && Indices(x)
    requires 0 <= i < n && Untransferred(cost, v, x, i) && Priced(cost, v, y)
    ensures Untransferred(cost, TransferRow(cost, v, x, unique, i), x, i + 1)
    ensures Priced(cost, TransferRow(cost, v, x, unique, i), y)
  {
    if x[i] >= 0 && unique[i] {
      SecondBestIsLeast(cost, v, i, x[i], n);
      var j, min := x[i], SecondBest(cost, v, i, x[i], n);
      var w := v[j := v[j] - min];
      assert min >= 0.0;
      assert y[j] == i;
      forall k | 0 <= k < n && y[k] >= 0 ensures RowMin(cost, w, y[k], k) {
        assert RowMin(cost, v, y[k], k);
        assert k != j ==> y[k] != i;
      }
    }
  }

  /** Lowering the price of a row's only column by its second-best reduced cost keeps every row on its minimum. */
  lemma {:induction false} TransferKeepsPriced(cost: Matrix, v: seq<real>, x: seq<int>, y: seq<int>,
                                               unique: seq<bool>, n: nat, end: nat)
    requires Square(cost, n) && |v| == |unique| == |x| == |y| == n && end <= n && Exact(x, y, n) && Indices(x)
    requires Untransferred(cost, v, x, 0) && Priced(cost, v, y)
    ensures Untransferred(cost, Transferred(cost, v, x, unique, end), x, end)
    ensures Priced(cost, Transferred(cost, v, x, unique, end), y)
  {
    hide Priced, Exact, Untransferred, TransferRow;
    if end > 0 {
      TransferKeepsPriced(cost, v, x, y, unique, n, end - 1);
      TransferRowKeepsPriced(cost, Transferred(cost, v, x, unique, end - 1), x, y, unique, n, end - 1);
    }
  }

  lemma {:induction false} InitiallyPriced(cost: Matrix, v: seq<real>, x: seq<int>, y0: seq<int>, y: seq<int>, n: nat)
    requires Square(cost, n) && |v| == |y0| == n && Exact(x, y, n) && Indices(x)
    requires WithinSentinel(cost, n)
    requires forall j :: 0 <= j < n ==> IsColumnMin(cost, n, j, v[j], y0[j], n)
    requires forall j :: 0 <= j < n ==> y[j] == -1 || y[j] == y0[j]
    ensures Untransferred(cost, v, x, 0) && Priced(cost, v, y)
  {
    forall j | 0 <= j < n ensures v[j] == cost[y0[j]][j] {
      assert v[j] <= cost[0][j] < LARGE;
    }
    forall k | 0 <= k < n && y[k] >= 0 ensures RowMin(cost, v, y[k], k) {
    }
  }

  /** The rows before `end` that have no column, in ascending order. */
  ghost function Columnless(x: seq<int>, end: nat): (free: seq<int>)
    requires end <= |x|
    ensures |free| <= end
  {
    if end == 0 then []
    else if x[end - 1] < 0 then Columnless(x, end - 1) + [end - 1]
    else Columnless(x, end - 1)
  }

  lemma {:induction false} ColumnlessMembers(x: seq<int>, end: nat)
    requires end <= |x|
    ensures forall i :: i in Columnless(x, end) <==> 0 <= i < end && x[i] < 0
    ensures Distinct(Columnless(x, end))
  {
    if end > 0 {
      ColumnlessMembers(x, end - 1);
    }
  }

  /** Collects the rows without a column and transfers the reduction of the others. */
  method Transfer(n: nat, cost: Matrix, freeRows: array<int>, x: array<int>, unique: array<bool>, v: array<real>)
    returns (nFree: nat)
    requires Square(cost, n)
    requires freeRows.Length == x.Length == unique.Length == v.Length == n && x != freeRows
    requires Indices(x[..])
    modifies freeRows, v
    ensures nFree <= n && freeRows[..nFree] == Columnless(x[..], n)
    ensures v[..] == Transferred(cost, old(v[..]), x[..], unique[..], n)
  {
    ghost var v0 := v[..];
    nFree := 0;
    for i := 0 to n
      invariant nFree <= i && freeRows[..nFree] == Columnless(x[..], i)
      invariant v[..] == Transferred(cost, v0, x[..], unique[..], i)
    {
      if x[i] < 0 {
        freeRows[nFree] := i;
        nFree := nFree + 1;
        assert freeRows[..nFree] == freeRows[..nFree - 1] + [i];
      } else if unique[i] {
        var j := x[i];
        var min := LARGE;
        for j2 := 0 to n
          invariant min == SecondBest(cost, v[..], i, j, j2)
        {
          if j2 == j {
            continue;
          }
          var c := cost[i][j2] - v[j2];
          if c < min {
            min := c;
          }
        }
        v[j] := v[j] - min;
      }
    }
  }

  ghost function Prices(cost: Matrix, n: nat): (v: seq<real>)
    requires Square(cost, n)
    ensures |v| == n && forall j :: 0 <= j < n ==> v[j] == ColumnLeast(cost, j, n).price
  {
    seq(n, j requires 0 <= j < n => ColumnLeast(cost, j, n).price)
  }

  ghost function MinRows(cost: Matrix, n: nat): (y: seq<int>)
    requires Square(cost, n)
    ensures |y| == n && forall j :: 0 <= j < n ==> y[j] == ColumnLeast(cost, j, n).row
  {
    seq(n, j requires 0 <= j < n => ColumnLeast(cost, j, n).row)
  }

  /** The columns once each has been handled, from its minimum row. */
  ghost function Handled(cost: Matrix, n: nat): (c: Columns)
    requires n >= 1 && Square(cost, n)
    ensures Even(c, n) && Indices(c.x)
  {
    AssignBefore(Columns(seq(n, i => -1), MinRows(cost, n), seq(n, i => true)), n)
  }

  /** What the phase makes of a cost matrix. */
  ghost function Reduced(cost: Matrix, n: nat): State
    requires n >= 1 && Square(cost, n)
  {
    var c := Handled(cost, n);
    State(c.x, c.y, Transferred(cost, Prices(cost, n), c.x, c.unique, n), Columnless(c.x, n))
  }

  lemma {:induction false} HandledAssigns(c: Columns, y0: seq<int>, n: nat, j: nat)
    requires AssignedFrom(c, y0, n, j) && Indices(c.x)
    ensures AssignedFrom(AssignBefore(c, j), y0, n, 0)
    decreases j
  {
    if j > 0 {
      AssignColumnAdvances(c, y0, n, j);
      HandledAssigns(AssignColumn(c, j - 1), y0, n, j - 1);
    }
  }

  /** A consistent partial assignment, its free rows, and prices that put every assigned row on its minimum. */
  lemma {:induction false} ReducedIsPriced(cost: Matrix, n: nat)
    requires n >= 1 && Square(cost, n)
    ensures Sound(Reduced(cost, n), n)
    ensures WithinSentinel(cost, n) ==> Priced(cost, Reduced(cost, n).v, Reduced(cost, n).y)
  {
    hide AssignedFrom, Priced, Exact, FreeRows, Transferred, AssignBefore, WithinSentinel;
    var y0, v0, c := MinRows(cost, n), Prices(cost, n), Handled(cost, n);
    AssignedStart(Columns(seq(n, i => -1), y0, seq(n, i => true)), n);
    HandledAssigns(Columns(seq(n, i => -1), y0, seq(n, i => true)), y0, n, n);
    AssignedIsExact(c, y0, n);
    ColumnlessAreFree(c.x, c.y, n);
    if WithinSentinel(cost, n) {
      forall j | 0 <= j < n ensures IsColumnMin(cost, n, j, v0[j], y0[j], n) {
        ColumnLeastIsMin(cost, n, j, n);
      }
      InitiallyPriced(cost, v0, c.x, y0, c.y, n);
      TransferKeepsPriced(cost, v0, c.x, c.y, c.unique, n, n);
    }
  }

  /** The whole phase: `_ccrrt_dense`. */
  method Reduce(n: nat, cost: Matrix, freeRows: array<int>, x: array<int>, y: array<int>, v: array<real>)
    returns (nFree: nat)
    requires n >= 1 && Square(cost, n)
    requires freeRows.Length == x.Length == y.Length == v.Length == n
    requires x != y && x != freeRows && y != freeRows
    modifies freeRows, x, y, v
    ensures nFree <= n
    ensures State(x[..], y[..], v[..], freeRows[..nFree]) == Reduced(cost, n)
    ensures Sound(State(x[..], y[..], v[..], freeRows[..nFree]), n)
    ensures WithinSentinel(cost, n) ==> Priced(cost, v[..], y[..])
  {
    ColumnMinima(n, cost, x, y, v);
    var unique := new bool[n](_ => true);
    assert forall i :: 0 <= i < n ==> unique[i];
    assert v[..] == Prices(cost, n);
    assert Columns(x[..], y[..], unique[..]) == Columns(seq(n, i => -1), MinRows(cost, n), seq(n, i => true));
    AssignColumns(n, x, y, unique);
    hide *;
    nFree := Transfer(n, cost, freeRows, x, unique, v);
    assert State(x[..], y[..], v[..], freeRows[..nFree]) == Reduced(cost, n) by {
      ReducedParts(cost, n);
    }
    ReducedIsPriced(cost, n);
  }

  lemma ReducedParts(cost: Matrix, n: nat)
    requires n >= 1 && Square(cost, n)
    ensures var c := Handled(cost, n);
      && c == AssignBefore(Columns(seq(n, i => -1), MinRows(cost, n), seq(n, i => true)), n)
      && Reduced(cost, n) == State(c.x, c.y, Transferred(cost, Prices(cost, n), c.x, c.unique, n), Columnless(c.x, n))
  {
  }

  lemma {:induction false} ColumnlessAreFree(x: seq<int>, y: seq<int>, n: nat)
    requires Exact(x, y, n)
    ensures FreeRows(Columnless(x, n), y, n)
  {
    ColumnlessMembers(x, n);
    var free := Columnless(x, n);
    assert forall k :: 0 <= k < |free| ==> free[k] in free;
    forall i | 0 <= i < n ensures i in free <==> i !in y {
      if i in y {
        var j :| 0 <= j < n && y[j] == i;
        assert x[y[j]] == j;
      }
    }
  }
}
