/** Phase two of the solver: augmenting row reduction, in place. */
module RowReduction {
  import opened Permutations
  import opened Assignment

  /** The best and second-best reduced costs of a row, as the scan finds them; j2 is -1 while v2 is the sentinel. */
  datatype TwoBest = TwoBest(j1: int, v1: real, j2: int, v2: real)

  function Scan(cost: Matrix, v: seq<real>, i: int, end: nat): (b: TwoBest)
    requires Square(cost, |v|) && 0 <= i < |v| && 1 <= end <= |v|
    ensures 0 <= b.j1 < end && -1 <= b.j2 < end
  {
    if end == 1 then TwoBest(0, cost[i][0] - v[0], -1, LARGE)
    else
      var b := Scan(cost, v, i, end - 1);
      var c := cost[i][end - 1] - v[end - 1];
      if c < b.v2 then
        if c >= b.v1 then b.(v2 := c, j2 := end - 1)
        else TwoBest(end - 1, c, b.j1, b.v1)
      else b
  }

  /** While all reduced costs of the row are below the sentinel, the scan finds the true minimum and runner-up. */
  lemma {:induction false} ScanFindsTwoBest(cost: Matrix, v: seq<real>, i: int, end: nat)
    requires Square(cost, |v|) && 0 <= i < |v| && 1 <= end <= |v|
    requires forall k :: 0 <= k < |v| ==> cost[i][k] - v[k] < LARGE
    ensures var b := Scan(cost, v, i, end);
      && b.v1 == cost[i][b.j1] - v[b.j1]
      && b.v1 <= b.v2
      && (forall k :: 0 <= k < end && k != b.j1 ==> b.v2 <= cost[i][k] - v[k])
      && (if b.j2 == -1 then b.v2 == LARGE else b.j2 != b.j1 && b.v2 == cost[i][b.j2] - v[b.j2])
  {
    if end > 1 {
      ScanFindsTwoBest(cost, v, i, end - 1);
    }
  }

  lemma FreeColumnNear(cost: Matrix, v: seq<real>, y: seq<int>, n: nat, i: int, j: int)
    requires Square(cost, n) && |v| == |y| == n && WithinSentinel(cost, n) && Capped(cost, v, y)
    requires 0 <= i < n && 0 <= j < n && y[j] < 0
    ensures 2.0 * (cost[i][j] - v[j]) < LARGE
  {
    assert AtEntry(cost, v, j);
    var k :| 0 <= k < n && v[j] == cost[k][j];
  }

  /** A free row sees no reduced cost at or above the sentinel. */
  lemma {:induction false} FreeRowBelowSentinel(cost: Matrix, v: seq<real>, x: seq<int>, y: seq<int>, n: nat, f: int)
    requires Square(cost, n) && |v| == n && Consistent(x, y, n) && WithinSentinel(cost, n)
    requires Priced(cost, v, y) && 0 <= f < n && f !in y
    ensures forall k :: 0 <= k < n ==> cost[f][k] - v[k] < LARGE
  {
    FreeRowGivesFreeColumn(x, y, n, f);
    var j0 :| 0 <= j0 < n && y[j0] == -1;
    forall k | 0 <= k < n ensures cost[f][k] - v[k] < LARGE {
      if y[k] >= 0 {
        var i := y[k];
        assert RowMin(cost, v, i, k);
        assert cost[i][k] - v[k] <= cost[i][j0] - v[j0];
        FreeColumnNear(cost, v, y, n, i, j0);
        assert 2.0 * (cost[f][k] - cost[i][k]) < LARGE;
      } else {
        FreeColumnNear(cost, v, y, n, f, k);
      }
    }
  }

  ghost function Displaced(a: seq<int>, i0: int, b: seq<int>): seq<int> {
    if i0 >= 0 then a + [i0] + b else a + b
  }

  /** Giving column j to the free row f frees exactly the row j had before. */
  lemma {:induction false} Reassign(x: seq<int>, y: seq<int>, n: nat, a: seq<int>, f: int, b: seq<int>, j: int)
    requires Consistent(x, y, n) && FreeRows(a + [f] + b, y, n) && 0 <= j < n
    ensures 0 <= f < n && Consistent(x[f := j], y[j := f], n)
    ensures FreeRows(Displaced(a, y[j], b), y[j := f], n)
  {
    var before, i0 := a + [f] + b, y[j];
    assert before[|a|] == f && f in before;
    var y1, after := y[j := f], Displaced(a, i0, b);
    assert forall k :: 0 <= k < |a| ==> before[k] == a[k];
    assert forall k :: 0 <= k < |b| ==> before[|a| + 1 + k] == b[k];
    assert forall i :: i in before <==> i in a || i == f || i in b;
    assert forall i :: i in after <==> i in a || (i == i0 && i0 >= 0) || i in b;
    assert f !in a && f !in b;
    assert i0 in y;
    forall i | 0 <= i < n ensures i in after <==> i !in y1 {
      if i in y {
        var k :| 0 <= k < n && y[k] == i;
        assert x[y[k]] == k;
        if i != i0 { assert k != j; assert y1[k] == i; }
      }
      if i == f {
        assert y1[j] == f;
      } else if i in y1 {
        var k :| 0 <= k < n && y1[k] == i;
        assert y[k] == i && x[y[k]] == k;
        assert i0 >= 0 ==> x[y[j]] == j;
      }
    }
    assert Distinct(after) && Within(after, n) by {
      assert i0 >= 0 ==> i0 !in before;
    }
  }

  /** The column a round settles on, and the prices it leaves. */
  datatype Choice = Choice(j: int, w: seq<real>, lowered: bool)

  /** Lines 121 to 131 of lapjv.cpp: the best column, cheaper by its lead over the second best;
      without a lead the second best, if the best one is taken. */
  ghost function Choose(cost: Matrix, v: seq<real>, y: seq<int>, f: int, lower: bool): (c: Choice)
    requires Square(cost, |v|) && |y| == |v| >= 1 && 0 <= f < |v|
    ensures 0 <= c.j < |v| && |c.w| == |v|
  {
    var b := Scan(cost, v, f, |v|);
    if b.v2 > b.v1 then Choice(b.j1, if lower then v[b.j1 := v[b.j1] - (b.v2 - b.v1)] else v, true)
    else Choice(if lower && y[b.j1] >= 0 && b.j2 >= 0 then b.j2 else b.j1, v, false)
  }

  lemma {:induction false} ChoiceKeepsPriced(cost: Matrix, v: seq<real>, x: seq<int>, y: seq<int>, n: nat, f: int,
                                             lower: bool)
    requires n >= 1 && Square(cost, n) && |v| == n && Consistent(x, y, n) && WithinSentinel(cost, n)
    requires 0 <= f < n && f !in y && Priced(cost, v, y)
    ensures var c := Choose(cost, v, y, f, lower);
      Priced(cost, c.w, y[c.j := f])
  {
    var c := Choose(cost, v, y, f, lower);
    var j, w := c.j, c.w;
    FreeRowBelowSentinel(cost, v, x, y, n, f);
    ScanFindsTwoBest(cost, v, f, n);
    assert RowMin(cost, w, f, j);
    forall k | 0 <= k < n && k != j && y[k] >= 0 ensures RowMin(cost, w, y[k], k) {
      assert RowMin(cost, v, y[k], k);
    }
    forall k | 0 <= k < n && k != j && y[k] < 0 ensures AtEntry(cost, w, k) {
      assert AtEntry(cost, v, k);
    }
  }

  /** One round of the loop: lines 101 to 147 of lapjv.cpp, for the row `f` just taken from the list. */
  method Round(n: nat, cost: Matrix, f: int, lower: bool, x: array<int>, y: array<int>, v: array<real>)
    returns (i0: int, lowered: bool)
    requires n >= 1 && Square(cost, n) && 0 <= f < n
    requires x.Length == y.Length == v.Length == n && x != y
    requires forall j :: 0 <= j < n ==> -1 <= y[j] < n
    modifies x, y, v
    ensures var c := Choose(cost, old(v[..]), old(y[..]), f, lower);
      && i0 == old(y[..])[c.j] && lowered == c.lowered && v[..] == c.w
      && x[..] == old(x[..])[f := c.j] && y[..] == old(y[..])[c.j := f]
  {
    ghost var vs := v[..];
    var j1, v1 := 0, cost[f][0] - v[0];
    var j2, v2 := -1, LARGE;
    for j := 1 to n
      invariant Scan(cost, vs, f, j) == TwoBest(j1, v1, j2, v2)
    {
      var c := cost[f][j] - v[j];
      if c < v2 {
        if c >= v1 {
          v2 := c;
          j2 := j;
        } else {
          v2 := v1;
          v1 := c;
          j2 := j1;
          j1 := j;
        }
      }
    }
    i0 := y[j1];
    var v1New := v[j1] - (v2 - v1);
    lowered := v1New < v[j1];
    if lower {
      if lowered {
        v[j1] := v1New;
      } else if i0 >= 0 && j2 >= 0 {
        j1 := j2;
        i0 := y[j2];
      }
    }
    x[f] := j1;
    y[j1] := f;
  }

  ghost function Budget(current: nat, n: nat): nat {
    if current == 0 then 0 else Budget(current - 1, n) + n
  }

  lemma {:induction false} BudgetIsProduct(current: nat, n: nat)
    ensures Budget(current, n) == current * n
  {
    if current > 0 {
      BudgetIsProduct(current - 1, n);
    }
  }

  lemma {:induction false} BudgetMonotone(a: nat, b: nat, n: nat)
    requires a <= b
    ensures Budget(a, n) <= Budget(b, n)
  {
    if a < b {
      BudgetMonotone(a, b - 1, n);
    }
  }

  /** Each position of the list earns n rounds; putting a row back spends one without moving on. */
  ghost predicate WithinBudget(rounds: nat, current: nat, nFree: nat, n: nat) {
    && current <= nFree && rounds <= Budget(nFree, n)
    && (rounds <= Budget(current, n) || rounds < Budget(current + 1, n))
  }

  /** The guard of line 124 of lapjv.cpp: while it holds, a round may lower a price and put the displaced row back. */
  predicate MayPutBack(rounds: nat, taken: nat, n: nat) {
    rounds < taken * n
  }

  lemma BudgetStart(nFree: nat, n: nat)
    ensures WithinBudget(0, 0, nFree, n)
  {
    BudgetMonotone(0, nFree, n);
  }

  lemma BudgetStep(rounds: nat, taken: nat, nFree: nat, n: nat)
    requires rounds >= 1 && 1 <= taken <= nFree && n >= 1 && WithinBudget(rounds - 1, taken - 1, nFree, n)
    ensures rounds <= Budget(nFree, n)
    ensures WithinBudget(rounds, taken, nFree, n)
    ensures MayPutBack(rounds, taken, n) ==> WithinBudget(rounds, taken - 1, nFree, n)
  {
    BudgetMonotone(taken, nFree, n);
    BudgetIsProduct(taken, n);
  }

  lemma BudgetEnd(rounds: nat, nFree: nat, n: nat)
    requires WithinBudget(rounds, nFree, nFree, n)
    ensures rounds <= n * nFree
  {
    BudgetIsProduct(nFree, n);
  }

  // ----- The phase as a function of its start -----

  /** The phase under way: rows given up so far, rows still to place, and the rounds done. */
  datatype Rows = Rows(x: seq<int>, y: seq<int>, v: seq<real>, done: seq<int>, todo: seq<int>, rounds: nat)

  ghost predicate InRange(c: Rows, n: nat) {
    && |c.x| == |c.y| == |c.v| == n >= 1 && Within(c.done, n) && Within(c.todo, n)
    && (forall j :: 0 <= j < n ==> -1 <= c.y[j] < n)
  }

  ghost predicate Ready(cost: Matrix, n: nat, c: Rows, nFree: nat) {
    && Square(cost, n) && InRange(c, n) && |c.todo| <= nFree
    && WithinBudget(c.rounds, nFree - |c.todo|, nFree, n)
  }

  /** Row f has taken column j, and the row it displaced, if any, is put back or given up. */
  ghost function Moved(c: Rows, j: int, w: seq<real>, back: bool): Rows
    requires c.todo != [] && 0 <= c.todo[0] < |c.x| && 0 <= j < |c.y|
  {
    var f, rest, i0 := c.todo[0], c.todo[1..], c.y[j];
    Rows(c.x[f := j], c.y[j := f], w,
         c.done + if i0 >= 0 && !back then [i0] else [],
         (if i0 >= 0 && back then [i0] else []) + rest,
         c.rounds + 1)
  }

  lemma MovedInRange(c: Rows, n: nat, j: int, w: seq<real>, back: bool)
    requires InRange(c, n) && c.todo != [] && 0 <= j < n && |w| == n
    ensures InRange(Moved(c, j, w, back), n)
  {
    var f, d := c.todo[0], Moved(c, j, w, back);
    assert forall k :: 0 <= k < n ==> d.y[k] == if k == j then f else c.y[k];
  }

  /** One round: the first row of the list takes its column; the row it displaces is put back in front
      if a price was lowered for it, and given up for this phase otherwise. */
  ghost function NextRows(cost: Matrix, n: nat, c: Rows, nFree: nat): Rows
    requires Ready(cost, n, c, nFree) && c.todo != []
  {
    var lower := MayPutBack(c.rounds + 1, nFree - |c.todo| + 1, n);
    var choice := Choose(cost, c.v, c.y, c.todo[0], lower);
    Moved(c, choice.j, choice.w, lower && choice.lowered)
  }

  lemma {:induction false} NextIsReady(cost: Matrix, n: nat, c: Rows, nFree: nat)
    requires Ready(cost, n, c, nFree) && c.todo != []
    ensures Ready(cost, n, NextRows(cost, n, c, nFree), nFree)
    ensures c.rounds < Budget(nFree, n) && NextRows(cost, n, c, nFree).rounds == c.rounds + 1
  {
    var taken := nFree - |c.todo| + 1;
    BudgetStep(c.rounds + 1, taken, nFree, n);
    var lower := MayPutBack(c.rounds + 1, taken, n);
    var choice := Choose(cost, c.v, c.y, c.todo[0], lower);
    MovedInRange(c, n, choice.j, choice.w, lower && choice.lowered);
    hide WithinBudget, MayPutBack, Choose, Budget, InRange;
  }

  /** All rounds from here on. */
  ghost function AllRows(cost: Matrix, n: nat, c: Rows, nFree: nat): (r: Rows)
    requires Ready(cost, n, c, nFree)
    ensures Ready(cost, n, r, nFree) && r.todo == []
    decreases Budget(nFree, n) - c.rounds
  {
    if c.todo == [] then c
    else
      NextIsReady(cost, n, c, nFree);
      AllRows(cost, n, NextRows(cost, n, c, nFree), nFree)
  }

  lemma StartIsReady(cost: Matrix, n: nat, s: State)
    requires n >= 1 && Square(cost, n) && Shaped(s, n)
    ensures Ready(cost, n, Rows(s.x, s.y, s.v, [], s.free, 0), |s.free|)
  {
    BudgetStart(|s.free|, n);
  }

  ghost function Rounds(cost: Matrix, n: nat, s: State): (r: Rows)
    requires n >= 1 && Square(cost, n) && Shaped(s, n)
    ensures Ready(cost, n, r, |s.free|) && r.todo == []
  {
    StartIsReady(cost, n, s);
    AllRows(cost, n, Rows(s.x, s.y, s.v, [], s.free, 0), |s.free|)
  }

  /** What the phase makes of the state it starts from. */
  ghost function RowsReduced(cost: Matrix, n: nat, s: State): (t: State)
    requires n >= 1 && Square(cost, n) && Shaped(s, n)
    ensures Shaped(t, n)
  {
    var r := Rounds(cost, n, s);
    State(r.x, r.y, r.v, r.done)
  }

  lemma {:induction false} NextKeepsSound(cost: Matrix, n: nat, c: Rows, nFree: nat)
    requires Ready(cost, n, c, nFree) && c.todo != []
    requires Consistent(c.x, c.y, n) && FreeRows(c.done + c.todo, c.y, n)
    ensures var d := NextRows(cost, n, c, nFree);
      && Consistent(d.x, d.y, n) && FreeRows(d.done + d.todo, d.y, n) && |d.done + d.todo| <= |c.done + c.todo|
      && (WithinSentinel(cost, n) && Priced(cost, c.v, c.y) ==> Priced(cost, d.v, d.y))
  {
    var d := NextRows(cost, n, c, nFree);
    var f, rest := c.todo[0], c.todo[1..];
    var lower := MayPutBack(c.rounds + 1, nFree - |c.todo| + 1, n);
    var choice := Choose(cost, c.v, c.y, f, lower);
    hide Priced, WithinSentinel, Choose, MayPutBack, WithinBudget, Ready;
    assert c.done + c.todo == c.done + [f] + rest;
    assert (c.done + [f] + rest)[|c.done|] == f;
    assert d.done + d.todo == Displaced(c.done, c.y[choice.j], rest);
    Reassign(c.x, c.y, n, c.done, f, rest, choice.j);
    if WithinSentinel(cost, n) && Priced(cost, c.v, c.y) {
      ChoiceKeepsPriced(cost, c.v, c.x, c.y, n, f, lower);
    }
  }

  lemma {:induction false} AllRowsKeepSound(cost: Matrix, n: nat, c: Rows, nFree: nat)
    requires Ready(cost, n, c, nFree)
    requires Consistent(c.x, c.y, n) && FreeRows(c.done + c.todo, c.y, n)
    ensures var d := AllRows(cost, n, c, nFree);
      && Consistent(d.x, d.y, n) && FreeRows(d.done, d.y, n) && |d.done| <= |c.done + c.todo|
      && (WithinSentinel(cost, n) && Priced(cost, c.v, c.y) ==> Priced(cost, d.v, d.y))
      && c.rounds <= d.rounds
    decreases Budget(nFree, n) - c.rounds
  {
    hide Priced, WithinSentinel, Consistent, FreeRows, NextRows;
    if c.todo == [] {
      assert c.done + c.todo == c.done;
    } else {
      NextIsReady(cost, n, c, nFree);
      NextKeepsSound(cost, n, c, nFree);
      AllRowsKeepSound(cost, n, NextRows(cost, n, c, nFree), nFree);
    }
  }

  /** The phase keeps the assignment consistent, its free rows listed and its prices; it ends within n rounds a row. */
  lemma {:induction false} RowsReducedIsPriced(cost: Matrix, n: nat, s: State)
    requires n >= 1 && Square(cost, n) && Shaped(s, n) && Sound(s, n)
    ensures Sound(RowsReduced(cost, n, s), n) && |RowsReduced(cost, n, s).free| <= |s.free|
    ensures WithinSentinel(cost, n) && Priced(cost, s.v, s.y)
      ==> Priced(cost, RowsReduced(cost, n, s).v, RowsReduced(cost, n, s).y)
    ensures Rounds(cost, n, s).rounds <= n * |s.free|
  {
    StartIsReady(cost, n, s);
    var start, r := Rows(s.x, s.y, s.v, [], s.free, 0), Rounds(cost, n, s);
    assert start.done + start.todo == s.free;
    AllRowsKeepSound(cost, n, start, |s.free|);
    BudgetEnd(r.rounds, |s.free|, n);
  }

  /** The in-place bookkeeping of a displaced row: read and written parts of the list never meet. */
  method Relist(freeRows: array<int>, current: nat, newFree: nat, nFree: nat, i0: int, back: bool)
    returns (current': nat, newFree': nat)
    requires newFree < current <= nFree <= freeRows.Length
    modifies freeRows
    ensures newFree' <= current' && current - 1 <= current' <= current
    ensures freeRows[..newFree'] == old(freeRows[..newFree]) + if i0 >= 0 && !back then [i0] else []
    ensures freeRows[current'..nFree] == (if i0 >= 0 && back then [i0] else []) + old(freeRows[current..nFree])
  {
    current', newFree' := current, newFree;
    if i0 >= 0 {
      if back {
        current' := current - 1;
        freeRows[current'] := i0;
      } else {
        freeRows[newFree] := i0;
        newFree' := newFree + 1;
      }
    }
  }

  ghost predicate Agrees(c: Rows, x: seq<int>, y: seq<int>, v: seq<real>, done: seq<int>, todo: seq<int>, rounds: nat) {
    c == Rows(x, y, v, done, todo, rounds)
  }

  /** The body of the loop: takes a row off the list, places it, and files the row it displaces. */
  method PlaceRow(n: nat, cost: Matrix, nFree: nat, current: nat, newFree: nat, rrCnt: nat, freeRows: array<int>,
                  x: array<int>, y: array<int>, v: array<real>, ghost c: Rows)
    returns (current': nat, newFree': nat, rrCnt': nat)
    requires n >= 1 && Square(cost, n) && newFree <= current < nFree <= n
    requires freeRows.Length == x.Length == y.Length == v.Length == n
    requires x != y && x != freeRows && y != freeRows
    requires Agrees(c, x[..], y[..], v[..], freeRows[..newFree], freeRows[current..nFree], rrCnt)
    requires Ready(cost, n, c, nFree) && c.todo != []
    modifies freeRows, x, y, v
    ensures newFree' <= current' <= nFree && rrCnt' == rrCnt + 1
    ensures Agrees(NextRows(cost, n, c, nFree), x[..], y[..], v[..],
                   freeRows[..newFree'], freeRows[current'..nFree], rrCnt')
  {
    rrCnt' := rrCnt + 1;
    var freeI := freeRows[current];
    current' := current + 1;
    ghost var rest := freeRows[current'..nFree];
    assert freeI == c.todo[0] && rest == c.todo[1..];
    hide Choose, MayPutBack, WithinBudget;
    var lower := MayPutBack(rrCnt', current', n);
    var i0, lowered := Round(n, cost, freeI, lower, x, y, v);
    current', newFree' := Relist(freeRows, current', newFree, nFree, i0, lower && lowered);
  }

  lemma ReadyParts(cost: Matrix, n: nat, c: Rows, nFree: nat)
    requires Ready(cost, n, c, nFree)
    ensures n >= 1 && Square(cost, n)
  {
  }

  /** The whole phase: `_carr_dense`. The rows still free end up, without repetition, at the front of the list. */
  method ReduceRows(n: nat, cost: Matrix, nFree: nat, freeRows: array<int>, x: array<int>, y: array<int>,
                    v: array<real>)
    returns (stillFree: nat, rrCnt: nat)
    requires n >= 1 && Square(cost, n) && nFree <= n
    requires freeRows.Length == x.Length == y.Length == v.Length == n
    requires x != y && x != freeRows && y != freeRows
    requires Shaped(State(x[..], y[..], v[..], freeRows[..nFree]), n)
    requires Sound(State(x[..], y[..], v[..], freeRows[..nFree]), n)
    modifies freeRows, x, y, v
    ensures stillFree <= nFree
    ensures State(x[..], y[..], v[..], freeRows[..stillFree])
         == RowsReduced(cost, n, old(State(x[..], y[..], v[..], freeRows[..nFree])))
    ensures Sound(State(x[..], y[..], v[..], freeRows[..stillFree]), n)
    ensures WithinSentinel(cost, n) && Priced(cost, old(v[..]), old(y[..])) ==> Priced(cost, v[..], y[..])
    ensures rrCnt == Rounds(cost, n, old(State(x[..], y[..], v[..], freeRows[..nFree]))).rounds <= n * nFree
  {
    ghost var s := State(x[..], y[..], v[..], freeRows[..nFree]);
    ghost var c := Rows(s.x, s.y, s.v, [], s.free, 0);
    StartIsReady(cost, n, s);
    RowsReducedIsPriced(cost, n, s);
    ghost var all := AllRows(cost, n, c, nFree);
    assert State(all.x, all.y, all.v, all.done) == RowsReduced(cost, n, s) && all == Rounds(cost, n, s);
    hide *;
    var current: nat, newFree: nat := 0, 0;
    rrCnt := 0;
    while current < nFree
      invariant newFree <= current <= nFree
      invariant Agrees(c, x[..], y[..], v[..], freeRows[..newFree], freeRows[current..nFree], rrCnt)
      invariant Ready(cost, n, c, nFree) && AllRows(cost, n, c, nFree) == all
      decreases Budget(nFree, n) - rrCnt
    {
      ReadyParts(cost, n, c, nFree);
      AllRowsStep(cost, n, c, nFree);
      current, newFree, rrCnt := PlaceRow(n, cost, nFree, current, newFree, rrCnt, freeRows, x, y, v, c);
      c := NextRows(cost, n, c, nFree);
    }
    AllRowsEnd(cost, n, c, nFree);
    stillFree := newFree;
  }

  lemma AllRowsStep(cost: Matrix, n: nat, c: Rows, nFree: nat)
    requires Ready(cost, n, c, nFree) && c.todo != []
    ensures c.rounds < Budget(nFree, n)
    ensures Ready(cost, n, NextRows(cost, n, c, nFree), nFree)
    ensures AllRows(cost, n, NextRows(cost, n, c, nFree), nFree) == AllRows(cost, n, c, nFree)
  {
    hide Ready, NextRows;
    NextIsReady(cost, n, c, nFree);
  }

  lemma AllRowsEnd(cost: Matrix, n: nat, c: Rows, nFree: nat)
    requires Ready(cost, n, c, nFree) && c.todo == []
    ensures AllRows(cost, n, c, nFree) == c
  {
  }
}
