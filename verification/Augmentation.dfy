/** Phase three, the walk: flips the alternating path back from the found column to the free row, in place. */
module Augmentation {
  import opened Permutations
  import opened Assignment
  import opened PathSearch

  /** Row r has a column other than j. */
  ghost predicate HasColumnBut(y: seq<int>, j: int, r: int) {
    exists c :: 0 <= c < |y| && c != j && y[c] == r
  }

  /** The walk stands at column order[p], whose old row has just been moved on to an earlier visited column. */
  ghost predicate Walking(x: seq<int>, y: seq<int>, y0: seq<int>, order: seq<int>, p: int, n: nat) {
    && |x| == |y0| == n && Partial(y, n) && Within(order, n) && 0 <= p < |order|
    && (forall c :: 0 <= c < n && c != order[p] && y[c] >= 0 ==> x[y[c]] == c)
    && (forall q :: 0 <= q < p ==> y[order[q]] == y0[order[q]])
    && (forall c :: 0 <= c < n && y0[c] >= 0 ==> y[c] >= 0)
    && (forall r :: 0 <= r < n ==> (r in y0 <==> HasColumnBut(y, order[p], r)))
  }

  /** The path visits distinct columns; each takes over the old row of the next, the last one takes s;
      the first column was unassigned and nothing else moves. */
  ghost predicate AlternatingPath(path: seq<int>, y0: seq<int>, y: seq<int>, s: int, n: nat) {
    && |y0| == |y| == n && 1 <= |path| && Within(path, n) && Distinct(path)
    && y0[path[0]] < 0 && y[path[|path| - 1]] == s
    && (forall t :: 1 <= t < |path| ==> y0[path[t]] >= 0)
    && (forall t :: 0 <= t < |path| - 1 ==> y[path[t]] == y0[path[t + 1]])
    && (forall c :: 0 <= c < n && c !in path ==> y[c] == y0[c])
  }

  /** One more row has a column, no row loses its own, and x follows y. */
  ghost predicate Gains(x: seq<int>, y0: seq<int>, y: seq<int>, s: int, n: nat) {
    && Consistent(x, y, n) && |y0| == n
    && (forall r :: 0 <= r < n ==> (r in y <==> r in y0 || r == s))
    && (forall c :: 0 <= c < n && y0[c] >= 0 ==> y[c] >= 0)
  }

  lemma {:induction false} WalkStarts(x: seq<int>, y: seq<int>, order: seq<int>, pred: seq<int>, s: int, n: nat)
    requires Consistent(x, y, n) && PathTree(y, pred, s, order, n)
    ensures Walking(x, y, y, order, |order| - 1, n)
  {
    forall r | 0 <= r < n ensures r in y <==> HasColumnBut(y, order[|order| - 1], r) {
      if r in y {
        var c :| 0 <= c < n && y[c] == r;
      }
    }
  }

  lemma {:induction false} WalkContinues(x: seq<int>, y: seq<int>, y0: seq<int>, pred: seq<int>, s: int,
                                         order: seq<int>, p: int, n: nat)
    returns (q: int)
    requires PathTree(y0, pred, s, order, n) && Walking(x, y, y0, order, p, n)
    requires s !in y0 && pred[order[p]] != s
    ensures 0 <= q < p && 0 <= pred[order[p]] < n && x[pred[order[p]]] == order[q] && y0[order[q]] == pred[order[p]]
    ensures Walking(x[pred[order[p]] := order[p]], y[order[p] := pred[order[p]]], y0, order, q, n)
  {
    var j := order[p];
    var i := pred[j];
    assert ReachedFromEarlier(y0, pred, s, order, n, p);
    q :| 0 <= q < p && y0[order[q]] == i;
    assert y[order[q]] == i && order[q] != j;
    var x', y' := x[i := j], y[j := i];
    forall c | 0 <= c < n && c != order[q] && y'[c] >= 0 ensures x'[y'[c]] == c {
      if c != j {
        assert x[y[c]] == c;
      }
    }
    forall r | 0 <= r < n ensures r in y0 <==> HasColumnBut(y', order[q], r) {
      if r in y0 {
        var c :| 0 <= c < |y| && c != j && y[c] == r;
        if r == i {
          assert y'[j] == r;
        } else {
          assert y'[c] == r;
        }
      }
      if HasColumnBut(y', order[q], r) {
        var c :| 0 <= c < |y'| && c != order[q] && y'[c] == r;
        if c == j {
          assert y[order[q]] == r;
        } else {
          assert y[c] == r;
        }
        assert HasColumnBut(y, j, r);
      }
    }
  }

  lemma {:induction false} WalkEnds(x: seq<int>, y: seq<int>, y0: seq<int>, pred: seq<int>, s: int, order: seq<int>,
                                    p: int, n: nat)
    requires PathTree(y0, pred, s, order, n) && Walking(x, y, y0, order, p, n)
    requires s !in y0 && pred[order[p]] == s
    ensures Gains(x[s := order[p]], y0, y[order[p] := s], s, n)
  {
    var j := order[p];
    var x', y' := x[s := j], y[j := s];
    forall r | 0 <= r < n ensures r in y' <==> r in y0 || r == s {
      if r in y0 {
        var c :| 0 <= c < |y| && c != j && y[c] == r;
        assert y'[c] == r;
      }
      if r == s {
        assert y'[j] == s;
      } else if r in y' {
        var c :| 0 <= c < n && y'[c] == r;
        assert y[c] == r;
        assert HasColumnBut(y, j, r);
      }
    }
    assert !HasColumnBut(y, j, s);
  }

  /** The columns visited so far and what became of their rows. */
  ghost predicate Visited(path: seq<int>, y0: seq<int>, y: seq<int>, order: seq<int>, p: int, n: nat) {
    && |y0| == |y| == n && 1 <= |path| && Within(path, n) && Distinct(path) && y0[path[0]] < 0
    && 0 <= p < |order| && path[|path| - 1] == order[p]
    && |path| + p <= |order|
    && (forall t :: 1 <= t < |path| ==> y0[path[t]] >= 0)
    && (forall q :: 0 <= q < p ==> order[q] !in path)
    && (forall t :: 0 <= t < |path| - 1 ==> y[path[t]] == y0[path[t + 1]])
    && (forall c :: 0 <= c < n && c !in path ==> y[c] == y0[c])
  }

  lemma {:induction false} VisitNext(path: seq<int>, y0: seq<int>, y: seq<int>, order: seq<int>, p: int, q: int, n: nat)
    requires Visited(path, y0, y, order, p, n) && Within(order, n) && Distinct(order)
    requires 0 <= q < p && 0 <= order[q] < n && y0[order[q]] >= 0
    ensures Visited(path + [order[q]], y0, y[order[p] := y0[order[q]]], order, q, n)
  {
    var path', y' := path + [order[q]], y[order[p] := y0[order[q]]];
    forall t | 0 <= t < |path'| - 1 ensures y'[path'[t]] == y0[path'[t + 1]] {
      if t < |path| - 1 {
        assert path[t] != path[|path| - 1];
      }
    }
    forall r | 0 <= r < q ensures order[r] !in path' {
    }
  }

  lemma {:induction false} VisitLast(path: seq<int>, y0: seq<int>, y: seq<int>, order: seq<int>, p: int, s: int, n: nat)
    requires Visited(path, y0, y, order, p, n)
    ensures AlternatingPath(path, y0, y[order[p] := s], s, n)
  {
    var y' := y[order[p] := s];
    forall t | 0 <= t < |path| - 1 ensures y'[path[t]] == y0[path[t + 1]] {
      assert path[t] != path[|path| - 1];
    }
  }

  /** All assigned rows but the one being moved sit on their minima. */
  ghost predicate MinimalBut(cost: Matrix, v: seq<real>, y: seq<int>, j: int)
    requires Square(cost, |v|) && |y| == |v|
  {
    forall c :: 0 <= c < |y| && c != j && 0 <= y[c] < |v| ==> RowMin(cost, v, y[c], c)
  }

  /** What one walk starts from: the old assignment, the free row, the search tree and the prices. */
  datatype Task = Task(cost: Matrix, v: seq<real>, y0: seq<int>, pred: seq<int>, s: int, order: seq<int>) {
    ghost predicate Valid(n: nat) {
      && Square(cost, n) && |v| == n && PathTree(y0, pred, s, order, n) && s !in y0
    }

    ghost predicate Priced(n: nat)
      requires Valid(n)
    {
      RowsMinimal(cost, v, y0) && TreeTight(cost, v, pred, order)
    }
  }

  /** The walk after |path| - 1 steps, standing at order[p]. */
  ghost predicate OnTheWay(t: Task, n: nat, x: seq<int>, y: seq<int>, path: seq<int>, p: int) {
    && t.Valid(n) && Walking(x, y, t.y0, t.order, p, n) && Visited(path, t.y0, y, t.order, p, n)
    && (t.Priced(n) ==> MinimalBut(t.cost, t.v, y, t.order[p]))
  }

  ghost predicate Arrived(t: Task, n: nat, x: seq<int>, y: seq<int>, path: seq<int>) {
    && t.Valid(n) && Gains(x, t.y0, y, t.s, n) && AlternatingPath(path, t.y0, y, t.s, n) && |path| <= |t.order|
    && (t.Priced(n) ==> RowsMinimal(t.cost, t.v, y))
  }

  lemma Departure(t: Task, n: nat, x: seq<int>)
    requires t.Valid(n) && Consistent(x, t.y0, n)
    ensures OnTheWay(t, n, x, t.y0, [t.order[|t.order| - 1]], |t.order| - 1)
  {
    WalkStarts(x, t.y0, t.order, t.pred, t.s, n);
  }

  /** One step of the walk either ends it or moves to an earlier column of the search order. */
  lemma {:induction false} Step(t: Task, n: nat, x: seq<int>, y: seq<int>, path: seq<int>, p: int) returns (q: int)
    requires OnTheWay(t, n, x, y, path, p)
    ensures 0 <= p < |t.order| && 0 <= t.order[p] < n && |path| + p <= |t.order| <= n
    ensures 0 <= t.pred[t.order[p]] < n == |x| == |y| == |t.pred|
    ensures var (j, i) := (t.order[p], t.pred[t.order[p]]);
      if i == t.s then Arrived(t, n, x[i := j], y[j := i], path)
      else 0 <= q < p && x[i] == t.order[q] && OnTheWay(t, n, x[i := j], y[j := i], path + [t.order[q]], q)
  {
    q := p;
    var j, i := t.order[p], t.pred[t.order[p]];
    if i == t.s {
      WalkEnds(x, y, t.y0, t.pred, t.s, t.order, p, n);
      VisitLast(path, t.y0, y, t.order, p, t.s, n);
    } else {
      q := WalkContinues(x, y, t.y0, t.pred, t.s, t.order, p, n);
      VisitNext(path, t.y0, y, t.order, p, q, n);
    }
  }

  /** A walk: the assignment it leaves, and the columns it went through. */
  datatype Walked = Walked(x: seq<int>, y: seq<int>, path: seq<int>)

  ghost predicate Walkable(pred: seq<int>, s: int, x: seq<int>, n: nat) {
    && |pred| == |x| == n && Within(pred, n)
    && (forall k :: 0 <= k < n && pred[k] != s ==> 0 <= x[pred[k]] < n)
  }

  /** The walk standing at the last column of `path`: it stops at the start row, or at its n-th column. */
  ghost function WalkFrom(pred: seq<int>, s: int, x: seq<int>, y: seq<int>, path: seq<int>, n: nat): (w: Walked)
    requires Walkable(pred, s, x, n) && |y| == n && 1 <= |path| <= n && Within(path, n)
    ensures |w.x| == |w.y| == n && 1 <= |w.path| <= n
    decreases n - |path|
  {
    var j := path[|path| - 1];
    var i := pred[j];
    if |path| == n || i == s then Walked(x[i := j], y[j := i], path)
    else WalkFrom(pred, s, x[i := j], y[j := i], path + [x[i]], n)
  }

  lemma {:induction false} WalkArrives(t: Task, n: nat, x: seq<int>, y: seq<int>, path: seq<int>, p: int)
    requires OnTheWay(t, n, x, y, path, p) && Walkable(t.pred, t.s, x, n) && 1 <= |path| <= n && Within(path, n)
    requires |y| == n && 0 <= p < |t.order| && path[|path| - 1] == t.order[p]
    ensures var w := WalkFrom(t.pred, t.s, x, y, path, n);
      Arrived(t, n, w.x, w.y, w.path)
    decreases n - |path|
  {
    hide OnTheWay, Arrived;
    var q := Step(t, n, x, y, path, p);
    var j, i := t.order[p], t.pred[t.order[p]];
    if |path| < n && i != t.s {
      WalkArrives(t, n, x[i := j], y[j := i], path + [t.order[q]], q);
    }
  }

  /** Every column the walk passes ends up with its predecessor. */
  lemma {:induction false} WalkWritesPredecessors(pred: seq<int>, s: int, x: seq<int>, y: seq<int>, path: seq<int>,
        n: nat)
    requires Walkable(pred, s, x, n) && |y| == n && 1 <= |path| <= n && Within(path, n)
    requires forall t :: 0 <= t < |path| - 1 ==> y[path[t]] == pred[path[t]]
    ensures var w := WalkFrom(pred, s, x, y, path, n);
      Within(w.path, n) && forall t :: 0 <= t < |w.path| ==> w.y[w.path[t]] == pred[w.path[t]]
    decreases n - |path|
  {
    var j := path[|path| - 1];
    var i := pred[j];
    if |path| < n && i != s {
      WalkWritesPredecessors(pred, s, x[i := j], y[j := i], path + [x[i]], n);
    }
  }

  datatype Outcome = Done | PathTooLong

  /** Lines 297 to 305 of lapjv.cpp, with the `throw` of line 303 as an outcome. */
  method Walk(n: nat, s: int, final: int, pred: array<int>, x: array<int>, y: array<int>)
    returns (r: Outcome)
    requires pred.Length == x.Length == y.Length == n && pred != x && pred != y && x != y
    requires Walkable(pred[..], s, x[..], n) && 0 <= final < n && 0 <= s < n
    modifies x, y
    ensures var w := WalkFrom(pred[..], s, old(x[..]), old(y[..]), [final], n);
      x[..] == w.x && y[..] == w.y && (r.PathTooLong? <==> |w.path| == n)
  {
    ghost var path, ps := [final], pred[..];
    ghost var all := WalkFrom(ps, s, x[..], y[..], path, n);
    var i, j, k := -1, final, 0;
    while i != s
      invariant i == s ==> x[..] == all.x && y[..] == all.y && |all.path| == k < n
      invariant i != s ==> Walkable(ps, s, x[..], n) && |path| == k + 1 <= n && Within(path, n) && path[k] == j
      invariant i != s ==> WalkFrom(ps, s, x[..], y[..], path, n) == all
      decreases i != s, n - k
    {
      ghost var xs, ys, j0 := x[..], y[..], j;
      i := pred[j];
      y[j] := i;
      var temp := j;
      j := x[i];
      x[i] := temp;
      assert x[..] == xs[i := j0] && y[..] == ys[j0 := i];
      k := k + 1;
      if k >= n {
        return PathTooLong;
      }
      if i != s {
        path := path + [j];
      }
    }
    r := Done;
  }

  lemma {:induction false} GainShortensFreeList(x: seq<int>, y0: seq<int>, y: seq<int>, n: nat, s: int, rest: seq<int>)
    requires FreeRows([s] + rest, y0, n) && Gains(x, y0, y, s, n)
    ensures FreeRows(rest, y, n)
  {
    var free := [s] + rest;
    assert free[0] == s;
    assert forall k :: 0 <= k < |rest| ==> free[k + 1] == rest[k];
    assert forall r :: r in free <==> r == s || r in rest;
    assert s !in rest;
  }

  /** A path over all n columns leaves no column and no row free. */
  lemma {:induction false} FullPathCompletes(path: seq<int>, x: seq<int>, y0: seq<int>, y: seq<int>, n: nat, s: int,
                                             rest: seq<int>)
    requires Gains(x, y0, y, s, n) && AlternatingPath(path, y0, y, s, n) && |path| == n && 0 <= s
    requires FreeRows(rest, y, n)
    ensures rest == []
  {
    PigeonHole(path, n);
    forall c | 0 <= c < n ensures y[c] >= 0 {
      assert c in path;
      var t :| 0 <= t < n && path[t] == c;
      if t < n - 1 {
        assert y[path[t]] == y0[path[t + 1]];
      }
    }
    if rest != [] {
      FreeRowGivesFreeColumn(x, y, n, rest[0]);
    }
  }

  /** The phase under way: assignment, prices, and the last walk with the columns' rows before it. */
  datatype Augmented = Augmented(x: seq<int>, y: seq<int>, v: seq<real>, path: seq<int>, before: seq<int>, start: int) {
    /** The check of line 302 of lapjv.cpp fires on the last walk. */
    ghost predicate Threw(n: nat) {
      |path| == n
    }
  }

  ghost predicate Augmentable(cost: Matrix, n: nat, a: Augmented, free: seq<int>) {
    n >= 1 && Square(cost, n) && Sound(State(a.x, a.y, a.v, free), n)
  }

  lemma RowIsSearchable(cost: Matrix, n: nat, a: Augmented, free: seq<int>)
    requires Augmentable(cost, n, a, free) && free != []
    ensures Searchable(cost, a.v, a.y, free[0]) && free[0] !in a.y
  {
    FreeRowGivesFreeColumn(a.x, a.y, n, free[0]);
  }

  lemma PathIsWalkable(cost: Matrix, n: nat, a: Augmented, free: seq<int>)
    requires Augmentable(cost, n, a, free) && free != []
    requires Searchable(cost, a.v, a.y, free[0])
    ensures Walkable(PathOf(cost, a.v, a.y, free[0]).pred, free[0], a.x, n)
  {
    var pred := PathOf(cost, a.v, a.y, free[0]).pred;
    PathIsTight(cost, a.v, a.y, free[0]);
    hide PathOf, PathTree;
    forall k | 0 <= k < n && pred[k] != free[0] ensures 0 <= a.x[pred[k]] < n {
      var j :| 0 <= j < n && a.y[j] == pred[k];
    }
  }

  /** The first free row of the list gets a column. */
  ghost function NextAugmented(cost: Matrix, n: nat, a: Augmented, free: seq<int>): Augmented
    requires Augmentable(cost, n, a, free) && free != []
  {
    RowIsSearchable(cost, n, a, free);
    PathIsWalkable(cost, n, a, free);
    var p := PathOf(cost, a.v, a.y, free[0]);
    var w := WalkFrom(p.pred, free[0], a.x, a.y, [p.final], n);
    Augmented(w.x, w.y, p.v, w.path, a.y, free[0])
  }

  lemma {:induction false} NextArrives(cost: Matrix, n: nat, a: Augmented, free: seq<int>)
    requires Augmentable(cost, n, a, free) && free != []
    ensures var d := NextAugmented(cost, n, a, free);
      && |d.v| == n && Gains(d.x, a.y, d.y, free[0], n) && AlternatingPath(d.path, a.y, d.y, free[0], n)
      && Searchable(cost, a.v, a.y, free[0]) && |d.path| <= |OrderOf(cost, a.v, a.y, free[0])|
      && (RowsMinimal(cost, a.v, a.y) ==>
          && RowsMinimal(cost, d.v, d.y)
          && forall j :: 0 <= j < n ==> d.v[j] <= a.v[j] && (a.y[j] < 0 ==> d.v[j] == a.v[j]))
  {
    var s, d := free[0], NextAugmented(cost, n, a, free);
    RowIsSearchable(cost, n, a, free);
    PathIsWalkable(cost, n, a, free);
    PathIsTight(cost, a.v, a.y, s);
    var p, order := PathOf(cost, a.v, a.y, s), OrderOf(cost, a.v, a.y, s);
    hide PathOf, OrderOf, RowsMinimal, AlternatingPath, TreeTight, PathTree, Searchable, WalkFrom, FreeRows, Gains,
      Consistent;
    var t := Task(cost, p.v, a.y, p.pred, s, order);
    Departure(t, n, a.x);
    TreeEnd(p.pred, a.y, s, order, n);
    WalkArrives(t, n, a.x, a.y, [p.final], |order| - 1);
  }

  /** The walk of one free row: a longer assignment, on row minima if it was before, with no price risen. */
  lemma {:induction false} NextAugments(cost: Matrix, n: nat, a: Augmented, free: seq<int>)
    requires Augmentable(cost, n, a, free) && free != []
    ensures var d := NextAugmented(cost, n, a, free);
      && Augmentable(cost, n, d, free[1..])
      && AlternatingPath(d.path, a.y, d.y, free[0], n)
      && (d.Threw(n) ==> free[1..] == [])
      && (RowsMinimal(cost, a.v, a.y) ==> RowsMinimal(cost, d.v, d.y))
      && (Priced(cost, a.v, a.y) ==> Priced(cost, d.v, d.y))
  {
    var s, rest, d := free[0], free[1..], NextAugmented(cost, n, a, free);
    NextArrives(cost, n, a, free);
    assert free == [s] + rest;
    hide RowsMinimal, AlternatingPath, Capped, NextAugmented, FreeRows;
    GainShortensFreeList(d.x, a.y, d.y, n, s, rest);
    if d.Threw(n) {
      FreeRowsWithin(free, a.y, n);
      FullPathCompletes(d.path, d.x, a.y, d.y, n, s, rest);
    }
    if Priced(cost, a.v, a.y) {
      GainKeepsCapped(cost, a.v, d.v, a.y, d.y, d.x, s, n);
    }
  }

  lemma FreeRowsWithin(free: seq<int>, y: seq<int>, n: nat)
    requires FreeRows(free, y, n)
    ensures Within(free, n)
  {
  }

  lemma TreeEnd(pred: seq<int>, y: seq<int>, s: int, order: seq<int>, n: nat)
    requires PathTree(y, pred, s, order, n)
    ensures 1 <= |order| <= n && Within(order, n)
  {
  }

  lemma GainKeepsCapped(cost: Matrix, v: seq<real>, w: seq<real>, y0: seq<int>, y: seq<int>, x: seq<int>, s: int,
                        n: nat)
    requires Square(cost, n) && |v| == |w| == n && Gains(x, y0, y, s, n) && Capped(cost, v, y0)
    requires forall j :: 0 <= j < n ==> w[j] <= v[j] && (y0[j] < 0 ==> w[j] == v[j])
    ensures Capped(cost, w, y)
  {
    forall j | 0 <= j < n && y[j] < 0 ensures AtEntry(cost, w, j) {
      assert AtEntry(cost, v, j);
    }
  }

  /** All free rows of the list, up to the first walk that is too long. */
  ghost function AugmentAll(cost: Matrix, n: nat, a: Augmented, free: seq<int>): (r: Augmented)
    requires Augmentable(cost, n, a, free)
    decreases |free|
  {
    if free == [] then a
    else
      var d := NextAugmented(cost, n, a, free);
      NextAugments(cost, n, a, free);
      if d.Threw(n) then d else AugmentAll(cost, n, d, free[1..])
  }

  /** Whether or not the last walk is too long, every row has a column in the end, on row minima if it began so. */
  lemma {:induction false} AugmentAllCompletes(cost: Matrix, n: nat, a: Augmented, free: seq<int>)
    requires Augmentable(cost, n, a, free)
    ensures var r := AugmentAll(cost, n, a, free);
      && MutuallyInverse(r.x, r.y, n) && |r.v| == n
      && (RowsMinimal(cost, a.v, a.y) ==> RowsMinimal(cost, r.v, r.y))
      && (free != [] ==> AlternatingPath(r.path, r.before, r.y, r.start, n))
    decreases |free|
  {
    hide RowsMinimal, AlternatingPath, MutuallyInverse, Priced, NextAugmented;
    if free == [] {
      NoFreeRows(a.x, a.y, n);
    } else {
      NextAugments(cost, n, a, free);
      var d := NextAugmented(cost, n, a, free);
      NextBefore(cost, n, a, free);
      if d.Threw(n) {
        NoFreeRows(d.x, d.y, n);
      } else {
        AugmentAllCompletes(cost, n, d, free[1..]);
      }
    }
  }

  lemma NextBefore(cost: Matrix, n: nat, a: Augmented, free: seq<int>)
    requires Augmentable(cost, n, a, free) && free != []
    ensures NextAugmented(cost, n, a, free).before == a.y && NextAugmented(cost, n, a, free).start == free[0]
  {
  }

  lemma AugmentStep(cost: Matrix, n: nat, a: Augmented, free: seq<int>)
    requires Augmentable(cost, n, a, free) && free != []
    ensures Searchable(cost, a.v, a.y, free[0]) && |a.v| == n && 0 <= free[0] < n
    ensures var (p, d) := (PathOf(cost, a.v, a.y, free[0]), NextAugmented(cost, n, a, free));
      && 0 <= p.final < n && Walkable(p.pred, free[0], a.x, n) && |a.y| == n
      && (var w := WalkFrom(p.pred, free[0], a.x, a.y, [p.final], n);
        d.x == w.x && d.y == w.y && d.v == p.v && (d.Threw(n) <==> |w.path| == n))
      && Augmentable(cost, n, d, free[1..])
      && AugmentAll(cost, n, a, free) == (if d.Threw(n) then d else AugmentAll(cost, n, d, free[1..]))
  {
    RowIsSearchable(cost, n, a, free);
    PathIsWalkable(cost, n, a, free);
    NextAugments(cost, n, a, free);
    hide PathOf, WalkFrom;
  }

  lemma AugmentEnd(cost: Matrix, n: nat, a: Augmented)
    requires Augmentable(cost, n, a, [])
    ensures AugmentAll(cost, n, a, []) == a
  {
  }

  /** The body of the loop: one free row gets a column. */
  method AugmentRow(n: nat, cost: Matrix, start: int, x: array<int>, y: array<int>, v: array<real>, pred: array<int>,
                    ghost a: Augmented, ghost free: seq<int>)
    returns (r: Outcome)
    requires x.Length == y.Length == v.Length == pred.Length == n && x != y && x != pred && y != pred
    requires Augmentable(cost, n, a, free) && free != [] && free[0] == start
    requires a.x == x[..] && a.y == y[..] && a.v == v[..]
    modifies x, y, v, pred
    ensures var d := NextAugmented(cost, n, a, free);
      x[..] == d.x && y[..] == d.y && v[..] == d.v && (r.PathTooLong? <==> d.Threw(n))
  {
    AugmentStep(cost, n, a, free);
    hide PathOf, WalkFrom, Sound, Searchable, NextAugmented, Walkable;
    var j := FindPath(n, cost, start, y, v, pred);
    assert 0 <= j < n;  // the checks of lines 289 and 293 of lapjv.cpp never fire
    r := Walk(n, start, j, pred, x, y);
  }

  /** The whole phase: `_ca_dense`. The check of line 302 of lapjv.cpp fires exactly when an augmenting path uses all
      n columns; the assignment is then already complete, so both outcomes leave an optimal one behind. */
  method Augment(n: nat, cost: Matrix, nFree: nat, freeRows: array<int>, x: array<int>, y: array<int>, v: array<real>,
                 ghost a0: Augmented)
    returns (r: Outcome)
    requires n >= 1 && Square(cost, n) && 1 <= nFree <= n
    requires freeRows.Length == x.Length == y.Length == v.Length == n
    requires x != y && x != freeRows && y != freeRows
    requires Augmentable(cost, n, a0, freeRows[..nFree]) && !a0.Threw(n)
    requires a0.x == x[..] && a0.y == y[..] && a0.v == v[..]
    modifies x, y, v
    ensures var a := AugmentAll(cost, n, a0, old(freeRows[..nFree]));
      && x[..] == a.x && y[..] == a.y && v[..] == a.v && (r.PathTooLong? <==> a.Threw(n))
      && AlternatingPath(a.path, a.before, y[..], a.start, n)
    ensures MutuallyInverse(x[..], y[..], n)
    ensures RowsMinimal(cost, a0.v, a0.y) ==> RowsMinimal(cost, v[..], y[..])
  {
    ghost var rows := freeRows[..nFree];
    ghost var a, all := a0, AugmentAll(cost, n, a0, rows);
    AugmentAllCompletes(cost, n, a0, rows);
    hide *;
    var pred := new int[n];
    for t := 0 to nFree
      invariant freeRows[..nFree] == rows && x[..] == a.x && y[..] == a.y && v[..] == a.v && !a.Threw(n)
      invariant Augmentable(cost, n, a, rows[t..]) && AugmentAll(cost, n, a, rows[t..]) == all
    {
      var start := freeRows[t];
      assert start == rows[t] == rows[t..][0];
      assert rows[t + 1..] == rows[t..][1..];
      AugmentStep(cost, n, a, rows[t..]);
      r := AugmentRow(n, cost, start, x, y, v, pred, a, rows[t..]);
      a := NextAugmented(cost, n, a, rows[t..]);
      if r.PathTooLong? {
        return;
      }
    }
    assert rows[nFree..] == [];
    AugmentEnd(cost, n, a);
    r := Done;
  }
}
