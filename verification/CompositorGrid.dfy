/** The tile layout of `compositor::push_buffer`. */
module CompositorGrid {

  /** (int) ceil(sqrt(k)), with an exact square root. */
  function CeilSqrt(k: nat): (n: nat)
    ensures k <= n * n && forall m: nat :: k <= m * m ==> n <= m
  {
    CeilSqrtFrom(k, 0)
  }

  function CeilSqrtFrom(k: nat, low: nat): (n: nat)
    requires forall m: nat :: m < low ==> m * m < k
    ensures k <= n * n && forall m: nat :: k <= m * m ==> n <= m
    decreases k - low * low
  {
    if k <= low * low then low
    else
      Squares(low);
      CeilSqrtFrom(k, low + 1)
  }

  lemma Squares(low: nat)
    ensures low * low < (low + 1) * (low + 1)
  {
  }

  /** Windows per row and per column, for the cameras and the cells the focus window takes. */
  function NumWindows(cameras: nat, focusSize: nat): nat {
    CeilSqrt(cameras + focusSize * focusSize)
  }

  /** Column and row of a camera's small window: beside the focus window first, then below it. */
  function Cell(i: nat, windows: nat, focusSize: nat): (int, int)
    requires focusSize < windows
  {
    var beside := windows - focusSize;
    if i < beside * focusSize then (i % beside + focusSize, i / beside)
    else ((i - beside * focusSize) % windows, (i - beside * focusSize) / windows + focusSize)
  }

  lemma ProductsGrow(a: int, b: int, d: int)
    requires a <= b && 0 <= d
    ensures a * d <= b * d
  {
  }

  /** With at least one camera there is room beside the focus window, so no divisor is zero. */
  lemma RoomBesideFocus(cameras: nat, focusSize: nat)
    requires cameras >= 1
    ensures focusSize < NumWindows(cameras, focusSize)
  {
    var n := NumWindows(cameras, focusSize);
    if n <= focusSize {
      ProductsGrow(n, focusSize, n);
      ProductsGrow(n, focusSize, focusSize);
    }
  }

  /** No smaller square grid has room for all. */
  lemma LeastGrid(cameras: nat, focusSize: nat, side: nat)
    ensures side >= NumWindows(cameras, focusSize) <==> cameras + focusSize * focusSize <= side * side
  {
    var n := NumWindows(cameras, focusSize);
    if side >= n {
      ProductsGrow(n, side, n);
      ProductsGrow(n, side, side);
    }
  }

  lemma QuotientBelow(a: int, b: int, d: int)
    requires d > 0 && 0 <= a < b * d
    ensures 0 <= a / d < b
  {
    if a / d >= b {
      ProductsGrow(b, a / d, d);
    }
  }

  /** Every camera's cell lies in a grid with room for all, and outside the focus window. */
  lemma CellInGrid(i: nat, cameras: nat, focusSize: nat, windows: nat)
    requires i < cameras && focusSize < windows && cameras + focusSize * focusSize <= windows * windows
    ensures var (x, y) := Cell(i, windows, focusSize);
      0 <= x < windows && 0 <= y < windows && (x >= focusSize || y >= focusSize)
  {
    var beside := windows - focusSize;
    if i < beside * focusSize {
      assert beside * focusSize == focusSize * beside;
      QuotientBelow(i, focusSize, beside);
    } else {
      assert windows * windows - focusSize * focusSize == beside * windows + beside * focusSize;
      QuotientBelow(i - beside * focusSize, beside, windows);
    }
  }

  /** Different cameras have different cells. */
  lemma CellsDiffer(i: nat, j: nat, windows: nat, focusSize: nat)
    requires focusSize < windows && i != j
    ensures Cell(i, windows, focusSize) != Cell(j, windows, focusSize)
  {
    var beside := windows - focusSize;
    var cut := beside * focusSize;
    assert cut == focusSize * beside;
    if i < cut && j < cut {
      SameQuotient(i, j, beside);
    } else if i < cut {
      QuotientBelow(i, focusSize, beside);
      QuotientSign(j - cut, windows);
    } else if j < cut {
      QuotientBelow(j, focusSize, beside);
      QuotientSign(i - cut, windows);
    } else {
      SameQuotient(i - cut, j - cut, windows);
    }
  }

  lemma QuotientSign(a: int, d: int)
    requires a >= 0 && d > 0
    ensures a / d >= 0
  {
  }

  lemma SameQuotient(a: int, b: int, d: int)
    requires d > 0 && a != b
    ensures a / d != b / d || a % d != b % d
  {
    assert a == a / d * d + a % d && b == b / d * d + b % d;
  }

  /** Before in reading order: in a higher row, or further left in the same one. */
  predicate Before(a: (int, int), b: (int, int)) {
    a.1 < b.1 || (a.1 == b.1 && a.0 < b.0)
  }

  lemma QuotientsAscend(a: int, b: int, d: int)
    requires d > 0 && 0 <= a < b
    ensures Before((a % d, a / d), (b % d, b / d))
  {
    assert a == a / d * d + a % d && b == b / d * d + b % d;
    if a / d > b / d {
      ProductsGrow(b / d + 1, a / d, d);
    }
  }

  /** Beside the focus window and below it, with the number of cells beside it given. */
  lemma CellAt(i: nat, windows: nat, focusSize: nat, beside: nat, cut: nat)
    requires focusSize < windows && beside == windows - focusSize && cut == beside * focusSize
    ensures i < cut ==> Cell(i, windows, focusSize) == (i % beside + focusSize, i / beside) && i / beside < focusSize
    ensures i >= cut ==> Cell(i, windows, focusSize) == ((i - cut) % windows, (i - cut) / windows + focusSize)
  {
    if i < cut {
      assert cut == focusSize * beside;
      QuotientBelow(i, focusSize, beside);
    }
  }

  /** The cameras fill the grid in reading order. */
  lemma CellsInOrder(i: nat, j: nat, windows: nat, focusSize: nat)
    requires focusSize < windows && i < j
    ensures Before(Cell(i, windows, focusSize), Cell(j, windows, focusSize))
  {
    var beside := windows - focusSize;
    var cut := beside * focusSize;
    CellAt(i, windows, focusSize, beside, cut);
    CellAt(j, windows, focusSize, beside, cut);
    hide Cell;
    if j < cut {
      QuotientsAscend(i, j, beside);
    } else if i < cut {
      QuotientSign(j - cut, windows);
    } else {
      QuotientsAscend(i - cut, j - cut, windows);
    }
  }

  lemma DivideBack(x: nat, y: nat, d: nat)
    requires x < d
    ensures (y * d + x) % d == x && (y * d + x) / d == y
  {
    var a := y * d + x;
    assert a == a / d * d + a % d;
    if a / d < y {
      ProductsGrow(a / d + 1, y, d);
    } else if a / d > y {
      ProductsGrow(y + 1, a / d, d);
    }
  }

  lemma BesideFocus(x: nat, y: nat, beside: nat, focusSize: nat)
    requires x < beside && y < focusSize
    ensures y * beside + x < beside * focusSize
  {
    ProductsGrow(y + 1, focusSize, beside);
    assert (y + 1) * beside == y * beside + beside;
  }

  /** No cell outside the focus window is passed over. */
  lemma CellReached(x: nat, y: nat, windows: nat, focusSize: nat) returns (i: nat)
    requires focusSize < windows && x < windows && (x >= focusSize || y >= focusSize)
    ensures Cell(i, windows, focusSize) == (x, y)
  {
    var beside := windows - focusSize;
    var cut := beside * focusSize;
    if y < focusSize {
      BesideFocus(x - focusSize, y, beside, focusSize);
      DivideBack(x - focusSize, y, beside);
      i := y * beside + (x - focusSize);
    } else {
      DivideBack(x, y - focusSize, windows);
      i := cut + ((y - focusSize) * windows + x);
    }
    CellAt(i, windows, focusSize, beside, cut);
    hide Cell;
  }
}
