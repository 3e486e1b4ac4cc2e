/** Boxes and their overlap, which the tracker turns into assignment costs. */
module Rects {
  /** Left, top, width and height; the width and height a Kalman filter predicts may be anything. */
  datatype Rect = Rect(x: real, y: real, w: real, h: real)

  function Min(a: real, b: real): real { if a < b then a else b }

  function Max(a: real, b: real): real { if a > b then a else b }

  /** The overlap of two closed intervals, with the pixel convention that adds one. */
  function Overlap(a: real, alen: real, b: real, blen: real): (o: real)
    ensures o <= alen + 1.0 && o <= blen + 1.0
  {
    Min(a + alen, b + blen) - Max(a, b) + 1.0
  }

  lemma ProductMonotone(a: real, b: real, c: real, d: real)
    requires 0.0 <= a <= c && 0.0 <= b <= d
    ensures a * b <= c * d
  {
    assert a * b <= c * b;
    assert c * b <= c * d;
  }

  /** The denominator is at least the overlap itself, whatever the sizes. */
  lemma UnionAtLeastOverlap(iw: real, ih: real, w1: real, h1: real, w2: real, h2: real)
    requires 0.0 < iw && 0.0 < ih && iw <= w1 && iw <= w2 && ih <= h1 && ih <= h2
    ensures w1 * h1 + w2 * h2 - iw * ih >= iw * ih > 0.0
  {
    ProductMonotone(iw, ih, w1, h1);
    ProductMonotone(iw, ih, w2, h2);
  }

  lemma RatioWithinOne(p: real, q: real)
    requires 0.0 < p <= q
    ensures 0.0 <= p / q <= 1.0
  {
  }

  function Area(r: Rect): real {
    (r.w + 1.0) * (r.h + 1.0)
  }

  function CalcIoU(a: Rect, b: Rect): (iou: real)
    ensures 0.0 <= iou <= 1.0
  {
    var iw := Overlap(a.x, a.w, b.x, b.w);
    if iw > 0.0 then
      var ih := Overlap(a.y, a.h, b.y, b.h);
      if ih > 0.0 then
        UnionAtLeastOverlap(iw, ih, a.w + 1.0, a.h + 1.0, b.w + 1.0, b.h + 1.0);
        var ua := Area(a) + Area(b) - iw * ih;
        RatioWithinOne(iw * ih, ua);
        iw * ih / ua
      else 0.0
    else 0.0
  }

  lemma IoUSymmetric(a: Rect, b: Rect)
    ensures CalcIoU(a, b) == CalcIoU(b, a)
  {
    assert Overlap(a.x, a.w, b.x, b.w) == Overlap(b.x, b.w, a.x, a.w);
    assert Overlap(a.y, a.h, b.y, b.h) == Overlap(b.y, b.h, a.y, a.h);
    hide Overlap, Area;
  }

  /** A box overlaps itself completely as soon as it covers a pixel. */
  lemma IoUWithItself(a: Rect)
    requires a.w > -1.0 && a.h > -1.0
    ensures CalcIoU(a, a) == 1.0
  {
    var w, h := a.w + 1.0, a.h + 1.0;
    assert Area(a) == w * h;
    assert Overlap(a.x, a.w, a.x, a.w) == w && Overlap(a.y, a.h, a.y, a.h) == h;
    ProductPositive(w, h);
    assert (w * h) / (w * h) == 1.0;
  }

  lemma ProductPositive(a: real, b: real)
    requires 0.0 < a && 0.0 < b
    ensures a * b > 0.0
  {
  }

  /** One interval ends before the other begins, or is empty; ends are one pixel beyond the last. */
  predicate NothingShared(a: real, alen: real, b: real, blen: real) {
    alen + 1.0 <= 0.0 || blen + 1.0 <= 0.0 || a + alen + 1.0 <= b || b + blen + 1.0 <= a
  }

  lemma NoOverlap(a: real, alen: real, b: real, blen: real)
    ensures Overlap(a, alen, b, blen) <= 0.0 <==> NothingShared(a, alen, b, blen)
  {
  }

  lemma QuotientPositive(p: real, q: real)
    requires 0.0 < p && 0.0 < q
    ensures p / q > 0.0
  {
  }

  lemma UnionOfAreas(a: Rect, b: Rect, iw: real, ih: real)
    requires 0.0 < iw <= a.w + 1.0 && 0.0 < ih <= a.h + 1.0 && iw <= b.w + 1.0 && ih <= b.h + 1.0
    ensures Area(a) + Area(b) - iw * ih >= iw * ih > 0.0
  {
    UnionAtLeastOverlap(iw, ih, a.w + 1.0, a.h + 1.0, b.w + 1.0, b.h + 1.0);
  }

  lemma BothOverlap(a: Rect, b: Rect)
    requires Overlap(a.x, a.w, b.x, b.w) > 0.0 && Overlap(a.y, a.h, b.y, b.h) > 0.0
    ensures CalcIoU(a, b) > 0.0
  {
    hide Overlap, Area;
    var iw, ih := Overlap(a.x, a.w, b.x, b.w), Overlap(a.y, a.h, b.y, b.h);
    UnionOfAreas(a, b, iw, ih);
    QuotientPositive(iw * ih, Area(a) + Area(b) - iw * ih);
  }

  /** The ratio is zero exactly for boxes that share nothing in one of the directions. */
  lemma ZeroIffApart(a: Rect, b: Rect)
    ensures CalcIoU(a, b) == 0.0 <==> NothingShared(a.x, a.w, b.x, b.w) || NothingShared(a.y, a.h, b.y, b.h)
  {
    NoOverlap(a.x, a.w, b.x, b.w);
    NoOverlap(a.y, a.h, b.y, b.h);
    hide Overlap, NothingShared;
    if Overlap(a.x, a.w, b.x, b.w) > 0.0 && Overlap(a.y, a.h, b.y, b.h) > 0.0 {
      BothOverlap(a, b);
    }
  }

  // ----- Counting cells -----

  /** A block of cells of the plane: w columns from x on, h rows from y on. */
  datatype Block = Block(x: int, y: int, w: int, h: int)

  ghost function Cells(c: Block): set<(int, int)> {
    set i, j | c.x <= i < c.x + c.w && c.y <= j < c.y + c.h :: (i, j)
  }

  /** The box that covers the block when a cell is u pixels wide and high. */
  function BoxOf(c: Block, u: real): Rect {
    Rect(c.x as real * u, c.y as real * u, c.w as real * u - 1.0, c.h as real * u - 1.0)
  }

  ghost function Size(c: Block): nat {
    if c.w <= 0 || c.h <= 0 then 0 else c.w * c.h
  }

  lemma {:induction false} ColumnCount(x: int, y: int, h: nat)
    ensures |Cells(Block(x, y, 1, h))| == h
  {
    if h > 0 {
      ColumnCount(x, y, h - 1);
      assert Cells(Block(x, y, 1, h)) == Cells(Block(x, y, 1, h - 1)) + {(x, y + h - 1)};
    } else {
      assert Cells(Block(x, y, 1, h)) == {};
    }
  }

  lemma CutColumn(c: Block)
    requires c.w > 0 && c.h > 0
    ensures Cells(c) == Cells(c.(w := c.w - 1)) + Cells(Block(c.x + c.w - 1, c.y, 1, c.h))
    ensures Cells(c.(w := c.w - 1)) !! Cells(Block(c.x + c.w - 1, c.y, 1, c.h))
  {
  }

  lemma NoCells(c: Block)
    requires c.w <= 0 || c.h <= 0
    ensures Cells(c) == {}
  {
  }

  lemma SizeOfColumns(c: Block)
    requires c.w > 0 && c.h > 0
    ensures Size(c) == Size(c.(w := c.w - 1)) + c.h
  {
    assert c.w * c.h == (c.w - 1) * c.h + c.h;
  }

  lemma {:induction false} CellCount(c: Block)
    ensures |Cells(c)| == Size(c)
    decreases if c.w > 0 then c.w else 0
  {
    hide Cells;
    if c.w <= 0 || c.h <= 0 {
      NoCells(c);
    } else {
      CutColumn(c);
      CellCount(c.(w := c.w - 1));
      ColumnCount(c.x + c.w - 1, c.y, c.h);
      SizeOfColumns(c);
      hide Size;
    }
  }

  function SharedLength(x: int, w: int, y: int, v: int): int {
    (if x + w < y + v then x + w else y + v) - if x > y then x else y
  }

  /** The cells of both blocks form a block. */
  ghost function Shared(c: Block, d: Block): Block {
    Block(if c.x > d.x then c.x else d.x, if c.y > d.y then c.y else d.y,
          SharedLength(c.x, c.w, d.x, d.w), SharedLength(c.y, c.h, d.y, d.h))
  }

  lemma SharedCells(c: Block, d: Block)
    ensures Cells(c) * Cells(d) == Cells(Shared(c, d))
  {
  }

  lemma ScaledOverlap(x: int, w: int, y: int, v: int, u: real, a: real, alen: real, b: real, blen: real)
    requires 0.0 < u
    requires a == x as real * u && alen == w as real * u - 1.0 && b == y as real * u && blen == v as real * u - 1.0
    ensures Overlap(a, alen, b, blen) == SharedLength(x, w, y, v) as real * u
  {
    Distribute(x, w, u);
    Distribute(y, v, u);
    ScaleOrder(x, y, u);
    ScaleOrder(x + w, y + v, u);
    Distribute(SharedLength(x, w, y, v), if x > y then x else y, u);
  }

  lemma Distribute(a: int, b: int, u: real)
    ensures (a + b) as real * u == a as real * u + b as real * u
  {
  }

  lemma ScaleOrder(a: int, b: int, u: real)
    requires 0.0 < u
    ensures a <= b <==> a as real * u <= b as real * u
  {
    if a <= b {
      assert a as real * u <= b as real * u;
    } else {
      assert a as real * u > b as real * u;
    }
  }

  lemma CellsOfUnion(c: Block, d: Block)
    ensures |Cells(c) * Cells(d)| == Size(Shared(c, d))
    ensures |Cells(c) + Cells(d)| == Size(c) + Size(d) - Size(Shared(c, d))
  {
    CellCount(c);
    CellCount(d);
    SharedCells(c, d);
    CellCount(Shared(c, d));
    hide *;
    SizeOfUnion(Cells(c), Cells(d));
  }

  lemma SizeOfUnion<T>(a: set<T>, b: set<T>)
    ensures |a + b| + |a * b| == |a| + |b|
  {
  }

  lemma BoxOverlap(c: Block, d: Block, u: real)
    requires u > 0.0
    ensures var a, b := BoxOf(c, u), BoxOf(d, u);
            && Overlap(a.x, a.w, b.x, b.w) == Shared(c, d).w as real * u
            && Overlap(a.y, a.h, b.y, b.h) == Shared(c, d).h as real * u
  {
    hide Overlap, SharedLength;
    var a, b := BoxOf(c, u), BoxOf(d, u);
    ScaledOverlap(c.x, c.w, d.x, d.w, u, a.x, a.w, b.x, b.w);
    ScaledOverlap(c.y, c.h, d.y, d.h, u, a.y, a.h, b.y, b.h);
  }

  lemma ScaledProduct(a: int, b: int, u: real)
    ensures (a as real * u) * (b as real * u) == (a * b) as real * (u * u)
  {
    assert (a as real * u) * (b as real * u) == (a as real * b as real) * (u * u);
  }

  lemma ScaledRatio(p: real, q: real, s: real)
    requires 0.0 < q && 0.0 < s
    ensures q * s > 0.0 && (p * s) / (q * s) * q == p
  {
    assert (p * s) / (q * s) == p / q;
  }

  lemma WithinProduct(a: int, b: int, c: int, d: int)
    requires 0 < a <= c && 0 < b <= d
    ensures 0 < a * b <= c * d
  {
    assert a * b <= c * b;
    assert c * b <= c * d;
  }

  lemma SizeOfShared(c: Block, d: Block)
    requires Shared(c, d).w > 0 && Shared(c, d).h > 0
    ensures c.w > 0 && c.h > 0 && d.w > 0 && d.h > 0
    ensures 0 < Size(Shared(c, d)) <= Size(c) && Size(Shared(c, d)) <= Size(d)
  {
    var s := Shared(c, d);
    WithinProduct(s.w, s.h, c.w, c.h);
    WithinProduct(s.w, s.h, d.w, d.h);
  }

  lemma BoxArea(c: Block, u: real, cell: real)
    requires c.w > 0 && c.h > 0 && cell == u * u
    ensures Area(BoxOf(c, u)) == Size(c) as real * cell
  {
    ScaledProduct(c.w, c.h, u);
  }

  lemma ScaledSides(s: Block, u: real, cell: real, iw: real, ih: real)
    requires u > 0.0 && s.w > 0 && s.h > 0 && iw == s.w as real * u && ih == s.h as real * u && cell == u * u
    ensures cell > 0.0 && iw > 0.0 && ih > 0.0 && iw * ih == Size(s) as real * cell
  {
    ScaledProduct(s.w, s.h, u);
    ProductPositive(s.w as real, u);
    ProductPositive(s.h as real, u);
    ProductPositive(u, u);
  }

  lemma ScaledUnion(a: real, b: real, p: real, m: int, n: int, k: int, s: real)
    requires a == m as real * s && b == n as real * s && p == k as real * s
    ensures a + b - p == (m + n - k) as real * s
  {
  }

  lemma RatioOfUnion(a: Rect, b: Rect, p: real, size: int, all: int, s: real)
    requires Overlap(a.x, a.w, b.x, b.w) > 0.0 && Overlap(a.y, a.h, b.y, b.h) > 0.0
    requires p == Overlap(a.x, a.w, b.x, b.w) * Overlap(a.y, a.h, b.y, b.h)
    requires s > 0.0 && all > 0 && p == size as real * s && Area(a) + Area(b) - p == all as real * s
    ensures CalcIoU(a, b) * all as real == size as real
  {
    hide Overlap, Area;
    ScaledRatio(size as real, all as real, s);
  }

  lemma SizesOverlap(c: Block, d: Block, u: real, cell: real)
    requires u > 0.0 && Shared(c, d).w > 0 && Shared(c, d).h > 0 && cell == u * u
    ensures var a, b := BoxOf(c, u), BoxOf(d, u);
            var iw, ih := Overlap(a.x, a.w, b.x, b.w), Overlap(a.y, a.h, b.y, b.h);
            iw > 0.0 && ih > 0.0 && cell > 0.0 && iw * ih == Size(Shared(c, d)) as real * cell
  {
    hide *;
    var a, b, s := BoxOf(c, u), BoxOf(d, u), Shared(c, d);
    BoxOverlap(c, d, u);
    ScaledSides(s, u, cell, Overlap(a.x, a.w, b.x, b.w), Overlap(a.y, a.h, b.y, b.h));
  }

  lemma RatioOfSizes(c: Block, d: Block, u: real, cell: real)
    requires u > 0.0 && Shared(c, d).w > 0 && Shared(c, d).h > 0 && cell == u * u
    ensures CalcIoU(BoxOf(c, u), BoxOf(d, u)) * (Size(c) + Size(d) - Size(Shared(c, d))) as real ==
            Size(Shared(c, d)) as real
  {
    hide *;
    var a, b, s := BoxOf(c, u), BoxOf(d, u), Shared(c, d);
    SizesOverlap(c, d, u, cell);
    SizeOfShared(c, d);
    BoxArea(c, u, cell);
    BoxArea(d, u, cell);
    var p := Overlap(a.x, a.w, b.x, b.w) * Overlap(a.y, a.h, b.y, b.h);
    ScaledUnion(Area(a), Area(b), p, Size(c), Size(d), Size(s), cell);
    RatioOfUnion(a, b, p, Size(s), Size(c) + Size(d) - Size(s), cell);
  }

  lemma NoRatio(c: Block, d: Block, u: real)
    requires u > 0.0 && (Shared(c, d).w <= 0 || Shared(c, d).h <= 0)
    ensures CalcIoU(BoxOf(c, u), BoxOf(d, u)) == 0.0
  {
    BoxOverlap(c, d, u);
    ScaleOrder(Shared(c, d).w, 0, u);
    ScaleOrder(Shared(c, d).h, 0, u);
    hide Overlap, Shared;
  }

  /**
   * The ratio is the number of cells in both boxes over the number of cells in either one, for boxes of
   * any size whose edges lie on a grid of cells of any side u; with u = 1 the cells are the pixels.
   */
  lemma IoUCountsCells(c: Block, d: Block, u: real)
    requires u > 0.0
    ensures CalcIoU(BoxOf(c, u), BoxOf(d, u)) * |Cells(c) + Cells(d)| as real == |Cells(c) * Cells(d)| as real
  {
    CellsOfUnion(c, d);
    hide CalcIoU, BoxOf, Cells, Shared;
    if Shared(c, d).w > 0 && Shared(c, d).h > 0 {
      RatioOfSizes(c, d, u, u * u);
    } else {
      NoRatio(c, d, u);
    }
  }
}
