/** Matching with a cost limit: a rectangular problem embedded in a square one, and what its solution means. */
module Threshold {
  import opened Permutations
  import opened Assignment

  ghost predicate Rectangular(cost: Matrix, r: nat, c: nat) {
    |cost| == r && forall i :: 0 <= i < r ==> |cost[i]| == c
  }

  /** m[i] is the column matched to row i, or -1. */
  ghost predicate Matching(m: seq<int>, r: nat, c: nat) {
    && |m| == r
    && (forall i :: 0 <= i < r ==> -1 <= m[i] < c)
    && (forall i, k :: 0 <= i < k < r && m[i] >= 0 ==> m[i] != m[k])
  }

  ghost function RowTerms(cost: Matrix, m: seq<int>, c: nat, fill: real): (t: seq<real>)
    requires Rectangular(cost, |m|, c) && Matching(m, |m|, c)
    ensures |t| == |m|
    ensures forall i :: 0 <= i < |m| ==> t[i] == if m[i] >= 0 then cost[i][m[i]] else fill
  {
    seq(|m|, i requires 0 <= i < |m| => if m[i] >= 0 then cost[i][m[i]] else fill)
  }

  ghost function ColumnTerms(m: seq<int>, c: nat, fill: real): (t: seq<real>)
    ensures |t| == c
    ensures forall j :: 0 <= j < c ==> t[j] == if j in m then 0.0 else fill
  {
    seq(c, j requires 0 <= j < c => if j in m then 0.0 else fill)
  }

  /** Matched cost, plus `fill` for every row and every column left out. */
  ghost function Value(cost: Matrix, m: seq<int>, c: nat, fill: real): real
    requires Rectangular(cost, |m|, c) && Matching(m, |m|, c)
  {
    Sum(RowTerms(cost, m, c, fill)) + Sum(ColumnTerms(m, c, fill))
  }

  ghost predicate BestMatching(cost: Matrix, m: seq<int>, r: nat, c: nat, fill: real)
    requires Rectangular(cost, r, c)
  {
    Matching(m, r, c) && forall k :: Matching(k, r, c) ==> Value(cost, m, c, fill) <= Value(cost, k, c, fill)
  }

  // ----- The extended square problem -----

  ghost predicate Extends(ext: Matrix, cost: Matrix, r: nat, c: nat, fill: real) {
    && Rectangular(cost, r, c) && Square(ext, r + c)
    && (forall i, j :: 0 <= i < r && 0 <= j < c ==> ext[i][j] == cost[i][j])
    && (forall i, j :: r <= i < r + c && c <= j < r + c ==> ext[i][j] == 0.0)
    && (forall i, j :: 0 <= i < r && c <= j < r + c ==> ext[i][j] == fill)
    && (forall i, j :: r <= i < r + c && 0 <= j < c ==> ext[i][j] == fill)
  }

  /** The part of a square solution that concerns real rows and columns. */
  ghost function Cut(p: seq<int>, r: nat, c: nat): (m: seq<int>)
    requires |p| == r + c
    ensures |m| == r && forall i :: 0 <= i < r ==> m[i] == if p[i] < c then p[i] else -1
  {
    seq(r, i requires 0 <= i < r => if p[i] < c then p[i] else -1)
  }

  ghost function RowOf(m: seq<int>, j: int): (i: int)
    requires j in m
    ensures 0 <= i < |m| && m[i] == j
  {
    var i :| 0 <= i < |m| && m[i] == j; i
  }

  /** Left-out rows and columns pair with their dummies; the dummies of a matched pair take each other. */
  ghost function Partner(m: seq<int>, r: nat, c: nat, k: int): (j: int)
    requires Matching(m, r, c) && 0 <= k < r + c
    ensures 0 <= j < r + c
  {
    if k < r then if m[k] >= 0 then m[k] else c + k
    else if k - r in m then c + RowOf(m, k - r) else k - r
  }

  /** A square solution whose cut is m. */
  ghost function Complete(m: seq<int>, r: nat, c: nat): (p: seq<int>)
    requires Matching(m, r, c)
    ensures |p| == r + c
    ensures forall k :: 0 <= k < r + c ==> p[k] == Partner(m, r, c, k)
  {
    seq(r + c, k requires 0 <= k < r + c => Partner(m, r, c, k))
  }

  lemma {:induction false} PartnersDiffer(m: seq<int>, r: nat, c: nat, a: nat, b: nat)
    requires Matching(m, r, c) && a < b < r + c
    ensures Partner(m, r, c, a) != Partner(m, r, c, b)
  {
    if b < r {
    } else if a < r {
      assert m[a] in m;
    } else {
    }
  }

  lemma {:induction false} CompleteIsPermutation(m: seq<int>, r: nat, c: nat)
    requires Matching(m, r, c)
    ensures IsPermutation(Complete(m, r, c), r + c)
    ensures Cut(Complete(m, r, c), r, c) == m
  {
    var p := Complete(m, r, c);
    forall a, b | 0 <= a < b < r + c ensures p[a] != p[b] {
      PartnersDiffer(m, r, c, a, b);
    }
    forall i | 0 <= i < r ensures Cut(p, r, c)[i] == m[i] {
      assert p[i] == Partner(m, r, c, i);
    }
  }

  lemma {:induction false} CutIsMatching(p: seq<int>, r: nat, c: nat)
    requires IsPermutation(p, r + c)
    ensures Matching(Cut(p, r, c), r, c)
  {
  }

  /** fill for each real column, nothing for a dummy one. */
  ghost function ColumnPrice(r: nat, c: nat, fill: real): (v: seq<real>)
    ensures |v| == r + c
    ensures forall j :: 0 <= j < r + c ==> v[j] == if j < c then fill else 0.0
  {
    seq(r + c, j requires 0 <= j < r + c => if j < c then fill else 0.0)
  }

  /** The dummy rows of a square solution pay for exactly the real columns its real rows do not use. */
  lemma {:induction false} DummyRowsCost(ext: Matrix, cost: Matrix, p: seq<int>, r: nat, c: nat, fill: real)
    requires Extends(ext, cost, r, c, fill) && IsPermutation(p, r + c)
    ensures var price := Compose(ColumnPrice(r, c, fill), p);
      Sum(Chosen(ext, p)[r..]) == Sum(ColumnPrice(r, c, fill)) - Sum(price[..r])
  {
    var price := Compose(ColumnPrice(r, c, fill), p);
    SumOfPermutation(ColumnPrice(r, c, fill), p);
    SumConcat(price[..r], price[r..]);
    assert price[..r] + price[r..] == price;
    assert Chosen(ext, p)[r..] == price[r..];
  }

  lemma {:induction false} SplitTotal(ext: Matrix, p: seq<int>, r: nat, c: nat)
    requires Square(ext, r + c) && IsPermutation(p, r + c)
    ensures TotalCost(ext, p) == Sum(Chosen(ext, p)[..r]) + Sum(Chosen(ext, p)[r..])
  {
    var t := Chosen(ext, p);
    assert t[..r] + t[r..] == t;
    SumConcat(t[..r], t[r..]);
  }

  /** Two square solutions with the same cut cost the same. */
  lemma {:induction false} SameCutSameCost(ext: Matrix, cost: Matrix, p: seq<int>, q: seq<int>, r: nat, c: nat,
                                           fill: real)
    requires Extends(ext, cost, r, c, fill)
    requires IsPermutation(p, r + c) && IsPermutation(q, r + c) && Cut(p, r, c) == Cut(q, r, c)
    ensures TotalCost(ext, p) == TotalCost(ext, q)
  {
    SplitTotal(ext, p, r, c);
    SplitTotal(ext, q, r, c);
    DummyRowsCost(ext, cost, p, r, c, fill);
    DummyRowsCost(ext, cost, q, r, c, fill);
    forall i | 0 <= i < r ensures (p[i] < c <==> q[i] < c) && (p[i] < c ==> p[i] == q[i]) {
      assert Cut(p, r, c)[i] == Cut(q, r, c)[i];
    }
    assert Chosen(ext, p)[..r] == Chosen(ext, q)[..r];
    assert Compose(ColumnPrice(r, c, fill), p)[..r] == Compose(ColumnPrice(r, c, fill), q)[..r];
  }

  lemma {:induction false} CompleteCost(ext: Matrix, cost: Matrix, m: seq<int>, r: nat, c: nat, fill: real)
    requires Extends(ext, cost, r, c, fill) && Matching(m, r, c)
    ensures IsPermutation(Complete(m, r, c), r + c)
    ensures TotalCost(ext, Complete(m, r, c)) == Value(cost, m, c, fill)
  {
    var p := Complete(m, r, c);
    CompleteIsPermutation(m, r, c);
    SplitTotal(ext, p, r, c);
    CompleteRowCost(ext, cost, m, r, c, fill);
    CompleteDummyCost(ext, cost, m, r, c, fill);
  }

  lemma {:induction false} CompleteRowCost(ext: Matrix, cost: Matrix, m: seq<int>, r: nat, c: nat, fill: real)
    requires Extends(ext, cost, r, c, fill) && Matching(m, r, c) && IsPermutation(Complete(m, r, c), r + c)
    ensures Chosen(ext, Complete(m, r, c))[..r] == RowTerms(cost, m, c, fill)
  {
    var p := Complete(m, r, c);
    forall i | 0 <= i < r ensures ext[i][p[i]] == RowTerms(cost, m, c, fill)[i] {
      assert p[i] == Partner(m, r, c, i);
    }
  }

  lemma {:induction false} CompleteDummyCost(ext: Matrix, cost: Matrix, m: seq<int>, r: nat, c: nat, fill: real)
    requires Extends(ext, cost, r, c, fill) && Matching(m, r, c) && IsPermutation(Complete(m, r, c), r + c)
    ensures Chosen(ext, Complete(m, r, c))[r..] == ColumnTerms(m, c, fill)
  {
    var p := Complete(m, r, c);
    forall j | 0 <= j < c ensures Chosen(ext, p)[r..][j] == ColumnTerms(m, c, fill)[j] {
      var k := r + j;
      assert p[k] == Partner(m, r, c, k);
      assert Chosen(ext, p)[r..][j] == ext[k][p[k]];
    }
  }

  /** An optimal solution of the extended square problem, cut back, is a best matching of the original one. */
  lemma {:induction false} CutIsBest(ext: Matrix, cost: Matrix, p: seq<int>, r: nat, c: nat, fill: real)
    requires Extends(ext, cost, r, c, fill) && Optimal(ext, p, r + c)
    ensures BestMatching(cost, Cut(p, r, c), r, c, fill)
  {
    var m := Cut(p, r, c);
    CutIsMatching(p, r, c);
    CompleteIsPermutation(m, r, c);
    SameCutSameCost(ext, cost, p, Complete(m, r, c), r, c, fill);
    CompleteCost(ext, cost, m, r, c, fill);
    forall k | Matching(k, r, c) ensures Value(cost, m, c, fill) <= Value(cost, k, c, fill) {
      CompleteCost(ext, cost, k, r, c, fill);
    }
  }

  /** In a best matching no kept pair costs more than twice the fill, that is, more than the limit. */
  lemma {:induction false} KeptPairsWithinLimit(cost: Matrix, m: seq<int>, r: nat, c: nat, fill: real, i: int)
    requires Rectangular(cost, r, c) && BestMatching(cost, m, r, c, fill)
    requires 0 <= i < r && m[i] >= 0
    ensures cost[i][m[i]] <= 2.0 * fill
  {
    var j, k := m[i], m[i := -1];
    assert Matching(k, r, c);
    assert j !in k;
    SumUpdate(RowTerms(cost, m, c, fill), i, fill);
    assert RowTerms(cost, k, c, fill) == RowTerms(cost, m, c, fill)[i := fill];
    SumUpdate(ColumnTerms(m, c, fill), j, fill);
    forall h | 0 <= h < c ensures ColumnTerms(k, c, fill)[h] == ColumnTerms(m, c, fill)[j := fill][h] {
      if h != j && h in m {
        var t := RowOf(m, h);
        assert k[t] == h;
      }
    }
    assert ColumnTerms(k, c, fill) == ColumnTerms(m, c, fill)[j := fill];
    assert Value(cost, m, c, fill) <= Value(cost, k, c, fill);
  }

  /** Moderate costs and limits keep the extended problem within the solver's sentinel. */
  lemma ExtendedWithinSentinel(ext: Matrix, cost: Matrix, r: nat, c: nat, fill: real, bound: real)
    requires Extends(ext, cost, r, c, fill) && 0.0 <= bound && 4.0 * bound < LARGE && -bound <= fill <= bound
    requires forall i, j :: 0 <= i < r && 0 <= j < c ==> -bound <= cost[i][j] <= bound
    ensures WithinSentinel(ext, r + c)
  {
    forall i, j | 0 <= i < r + c && 0 <= j < r + c ensures -bound <= ext[i][j] <= bound {
    }
  }
}
