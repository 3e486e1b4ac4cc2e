/** The assignment solver: three phases over shared arrays. */
module Lapjv {
  import opened Assignment
  import opened Augmentation
  import ColumnReduction
  import RowReduction

  lemma SoundIsShaped(s: State, n: nat)
    requires Sound(s, n)
    ensures Shaped(s, n) && |s.free| <= n
  {
    Permutations.PigeonHole(s.free, n);
  }

  /** At most `left` passes of row reduction, as long as a row is free. */
  ghost function Passes(cost: Matrix, n: nat, s: State, left: nat): (t: State)
    requires n >= 1 && Square(cost, n) && Shaped(s, n)
    ensures Shaped(t, n)
    decreases left
  {
    if left == 0 || s.free == [] then s else Passes(cost, n, RowReduction.RowsReduced(cost, n, s), left - 1)
  }

  /** What the first two phases leave. */
  ghost function Prepared(cost: Matrix, n: nat): (s: State)
    requires n >= 1 && Square(cost, n)
    ensures Shaped(s, n)
  {
    ColumnReduction.ReducedIsPriced(cost, n);
    SoundIsShaped(ColumnReduction.Reduced(cost, n), n);
    Passes(cost, n, ColumnReduction.Reduced(cost, n), 2)
  }

  lemma {:induction false} PassesArePriced(cost: Matrix, n: nat, s: State, left: nat)
    requires n >= 1 && Square(cost, n) && Shaped(s, n) && Sound(s, n)
    ensures Sound(Passes(cost, n, s, left), n)
    ensures WithinSentinel(cost, n) && Priced(cost, s.v, s.y)
      ==> Priced(cost, Passes(cost, n, s, left).v, Passes(cost, n, s, left).y)
    decreases left
  {
    hide Priced, WithinSentinel, Sound;
    if left > 0 && s.free != [] {
      RowReduction.RowsReducedIsPriced(cost, n, s);
      PassesArePriced(cost, n, RowReduction.RowsReduced(cost, n, s), left - 1);
    }
  }

  lemma {:induction false} PreparedIsPriced(cost: Matrix, n: nat)
    requires n >= 1 && Square(cost, n)
    ensures Sound(Prepared(cost, n), n)
    ensures WithinSentinel(cost, n) ==> Priced(cost, Prepared(cost, n).v, Prepared(cost, n).y)
  {
    hide Priced, WithinSentinel, Passes, Sound, Shaped;
    var s := ColumnReduction.Reduced(cost, n);
    ColumnReduction.ReducedIsPriced(cost, n);
    SoundIsShaped(s, n);
    PassesArePriced(cost, n, s, 2);
  }

  ghost function Unwalked(s: State): Augmented {
    Augmented(s.x, s.y, s.v, [], s.y, -1)
  }

  /** What the solver makes of a cost matrix: the assignment, the prices, and the last augmenting path
      with the columns' rows before it. */
  ghost function Solved(cost: Matrix, n: nat): Augmented
    requires n >= 1 && Square(cost, n)
  {
    PreparedIsPriced(cost, n);
    AugmentAll(cost, n, Unwalked(Prepared(cost, n)), Prepared(cost, n).free)
  }

  /** Weak duality for the prices the phases end with, whether or not the last path was too long. */
  lemma {:induction false} SolvedIsOptimal(cost: Matrix, n: nat)
    requires n >= 1 && Square(cost, n)
    ensures MutuallyInverse(Solved(cost, n).x, Solved(cost, n).y, n)
    ensures WithinSentinel(cost, n) ==> Optimal(cost, Solved(cost, n).x, n)
    ensures var a := Solved(cost, n);
      a.path != [] ==> AlternatingPath(a.path, a.before, a.y, a.start, n)
  {
    hide Optimal, WithinSentinel, MutuallyInverse, AlternatingPath, RowsMinimal, Capped, Prepared;
    PreparedIsPriced(cost, n);
    var s, a := Prepared(cost, n), Solved(cost, n);
    AugmentAllCompletes(cost, n, Unwalked(s), s.free);
    if WithinSentinel(cost, n) {
      PricesCertifyOptimality(cost, a.v, a.x, a.y, n);
    }
  }

  /** Lines 323 to 328 of lapjv.cpp: column reduction, then at most two passes of row reduction. */
  method Prepare(n: nat, cost: Matrix, freeRows: array<int>, x: array<int>, y: array<int>, v: array<real>)
    returns (ret: nat)
    requires n >= 1 && Square(cost, n)
    requires freeRows.Length == x.Length == y.Length == v.Length == n
    requires x != y && x != freeRows && y != freeRows
    modifies freeRows, x, y, v
    ensures ret <= n && State(x[..], y[..], v[..], freeRows[..ret]) == Prepared(cost, n)
  {
    ret := ColumnReduction.Reduce(n, cost, freeRows, x, y, v);
    ghost var s := ColumnReduction.Reduced(cost, n);
    SoundIsShaped(s, n);
    assert Prepared(cost, n) == Passes(cost, n, s, 2);
    hide *;
    var i := 0;
    while ret > 0 && i < 2
      invariant 0 <= ret <= n && 0 <= i <= 2
      invariant s.x == x[..] && s.y == y[..] && s.v == v[..] && s.free == freeRows[..ret]
      invariant Shaped(s, n) && Sound(s, n) && Passes(cost, n, s, 2 - i) == Prepared(cost, n)
    {
      RowReduction.RowsReducedIsPriced(cost, n, s);
      PassesStep(cost, n, s, 2 - i);
      var rrCnt;
      ret, rrCnt := RowReduction.ReduceRows(n, cost, ret, freeRows, x, y, v);
      s := RowReduction.RowsReduced(cost, n, s);
      i := i + 1;
    }
    PassesEnd(cost, n, s, 2 - i);
  }

  /** `lapjv_internal`. Whether it returns or throws, x and y end as inverse permutations, and within the
      sentinel bound as an optimal assignment; it throws exactly when the last augmenting path uses all n columns. */
  method Solve(n: nat, cost: Matrix, x: array<int>, y: array<int>) returns (r: Outcome)
    requires n >= 1 && Square(cost, n) && x.Length == y.Length == n && x != y
    modifies x, y
    ensures x[..] == Solved(cost, n).x && y[..] == Solved(cost, n).y
    ensures r.PathTooLong? <==> |Solved(cost, n).path| == n
    ensures var a := Solved(cost, n);
      a.path != [] ==> AlternatingPath(a.path, a.before, y[..], a.start, n)
    ensures MutuallyInverse(x[..], y[..], n)
    ensures WithinSentinel(cost, n) ==> Optimal(cost, x[..], n)
  {
    var freeRows := new int[n];
    var v := new real[n];
    SolvedIsOptimal(cost, n);
    SolvedParts(cost, n);
    hide *;
    var ret := Prepare(n, cost, freeRows, x, y, v);
    r := Done;
    if ret > 0 {
      r := Augment(n, cost, ret, freeRows, x, y, v, Unwalked(Prepared(cost, n)));
    }
  }

  lemma PassesStep(cost: Matrix, n: nat, s: State, left: nat)
    requires n >= 1 && Square(cost, n) && Shaped(s, n) && left > 0 && s.free != []
    ensures Shaped(RowReduction.RowsReduced(cost, n, s), n)
    ensures Passes(cost, n, s, left) == Passes(cost, n, RowReduction.RowsReduced(cost, n, s), left - 1)
  {
  }

  lemma PassesEnd(cost: Matrix, n: nat, s: State, left: nat)
    requires n >= 1 && Square(cost, n) && Shaped(s, n) && (left == 0 || s.free == [])
    ensures Passes(cost, n, s, left) == s
  {
  }

  lemma SolvedParts(cost: Matrix, n: nat)
    requires n >= 1 && Square(cost, n)
    ensures var (s, a) := (Prepared(cost, n), Unwalked(Prepared(cost, n)));
      && Augmentable(cost, n, a, s.free) && Solved(cost, n) == AugmentAll(cost, n, a, s.free)
      && (s.free == [] ==> Solved(cost, n) == a)
      && a.x == s.x && a.y == s.y && a.v == s.v && !a.Threw(n)
      && (Solved(cost, n).Threw(n) <==> |Solved(cost, n).path| == n)
  {
    PreparedIsPriced(cost, n);
  }
}
