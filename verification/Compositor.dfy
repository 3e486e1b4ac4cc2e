/** `compositor::push_buffer`: drawing every camera that has a new picture into the shared frame. */
module Compositor {
  import opened CompositorGrid

  /** A pixel of the frame: part of a camera's small window, part of the focus window, or whatever was there. */
  datatype Pixel =
    | Small(camera: nat, row: int, column: int)
    | Focus(camera: nat, row: int, column: int)
    | Other(id: int)

  /** The grid for a frame and a number of cameras. */
  datatype Layout = Layout(cameras: nat, focusSize: nat, windows: nat, tileWidth: nat, tileHeight: nat)

  function LayoutOf(cameras: nat, focusSize: nat, width: nat, height: nat): (l: Layout)
    requires cameras >= 1
    ensures focusSize < l.windows && LaidOut(l, width, height)
    ensures l.windows == NumWindows(cameras, focusSize)
  {
    RoomBesideFocus(cameras, focusSize);
    var n := NumWindows(cameras, focusSize);
    Layout(cameras, focusSize, n, width / n, height / n)
  }

  ghost predicate LaidOut(l: Layout, width: nat, height: nat) {
    && l.cameras >= 1 && l.focusSize < l.windows && l.cameras + l.focusSize * l.focusSize <= l.windows * l.windows
    && l.tileWidth == width / l.windows && l.tileHeight == height / l.windows
  }

  function Left(l: Layout, i: nat): int
    requires l.focusSize < l.windows
  {
    l.tileWidth * Cell(i, l.windows, l.focusSize).0
  }

  function Top(l: Layout, i: nat): int
    requires l.focusSize < l.windows
  {
    l.tileHeight * Cell(i, l.windows, l.focusSize).1
  }

  predicate InTile(l: Layout, i: nat, row: int, column: int)
    requires l.focusSize < l.windows
  {
    Left(l, i) <= column < Left(l, i) + l.tileWidth && Top(l, i) <= row < Top(l, i) + l.tileHeight
  }

  predicate InFocus(l: Layout, row: int, column: int) {
    0 <= column < l.tileWidth * l.focusSize && 0 <= row < l.tileHeight * l.focusSize
  }

  lemma CellOf(size: nat, k: int, at: int)
    requires k >= 0 && size * k <= at < size * k + size
    ensures size > 0 && at / size == k
  {
    assert at - size * k < size;
    assert at == size * k + (at - size * k);
    Quotient(size, k, at - size * k);
  }

  lemma Quotient(size: int, k: int, rest: int)
    requires 0 <= rest < size
    ensures (size * k + rest) / size == k
  {
    var a := size * k + rest;
    var q := a / size;
    assert a == q * size + a % size && k * size == size * k;
    if q < k {
      ProductsGrow(q + 1, k, size);
    } else if q > k {
      ProductsGrow(k + 1, q, size);
    }
  }

  /** No two cameras share a pixel. */
  lemma TilesApart(l: Layout, width: nat, height: nat, i: nat, j: nat, row: int, column: int)
    requires LaidOut(l, width, height) && i < l.cameras && j < l.cameras
    requires InTile(l, i, row, column) && InTile(l, j, row, column)
    ensures i == j
  {
    CellInGrid(i, l.cameras, l.focusSize, l.windows);
    CellInGrid(j, l.cameras, l.focusSize, l.windows);
    var (x, y) := Cell(i, l.windows, l.focusSize);
    var (u, v) := Cell(j, l.windows, l.focusSize);
    CellOf(l.tileWidth, x, column);
    CellOf(l.tileWidth, u, column);
    CellOf(l.tileHeight, y, row);
    CellOf(l.tileHeight, v, row);
    if i != j {
      CellsDiffer(i, j, l.windows, l.focusSize);
    }
  }

  /** No small window reaches into the focus window. */
  lemma TileOutsideFocus(l: Layout, width: nat, height: nat, i: nat, row: int, column: int)
    requires LaidOut(l, width, height) && i < l.cameras && InTile(l, i, row, column)
    ensures !InFocus(l, row, column)
  {
    CellInGrid(i, l.cameras, l.focusSize, l.windows);
    var (x, y) := Cell(i, l.windows, l.focusSize);
    if x >= l.focusSize {
      Scaled(l.tileWidth, l.focusSize, x);
    } else {
      Scaled(l.tileHeight, l.focusSize, y);
    }
  }

  lemma Scaled(size: nat, a: int, b: int)
    requires a <= b
    ensures size * a <= size * b
  {
  }

  /** Every small window and the focus window lie inside the frame. */
  lemma TileInFrame(l: Layout, width: nat, height: nat, i: nat)
    requires LaidOut(l, width, height) && i < l.cameras
    ensures 0 <= Left(l, i) && Left(l, i) + l.tileWidth <= width && 0 <= Top(l, i) && Top(l, i) + l.tileHeight <= height
  {
    CellInGrid(i, l.cameras, l.focusSize, l.windows);
    hide Cell, NumWindows;
    var cell := Cell(i, l.windows, l.focusSize);
    SideFits(width, l.windows, cell.0);
    SideFits(height, l.windows, cell.1);
  }

  lemma SideFits(size: nat, n: nat, k: int)
    requires 0 <= k < n
    ensures 0 <= size / n * k && size / n * k + size / n <= size
  {
    Fits(size, n, k + 1);
    assert size / n * (k + 1) == size / n * k + size / n;
  }

  lemma Fits(size: nat, n: nat, k: int)
    requires 0 <= k <= n && n > 0
    ensures size / n * k <= size
  {
    Scaled(size / n, k, n);
  }

  lemma FocusInFrame(l: Layout, width: nat, height: nat)
    requires LaidOut(l, width, height)
    ensures l.tileWidth * l.focusSize <= width && l.tileHeight * l.focusSize <= height
  {
    Fits(width, l.windows, l.focusSize);
    Fits(height, l.windows, l.focusSize);
  }

  /** No camera below n that has been drawn covers the pixel. */
  ghost predicate Untouched(l: Layout, ready: seq<bool>, focus: nat, n: nat, row: int, column: int)
    requires l.focusSize < l.windows && n <= |ready|
  {
    && (forall i :: 0 <= i < n && ready[i] ==> !InTile(l, i, row, column))
    && !(focus < n && ready[focus] && l.focusSize > 1 && InFocus(l, row, column))
  }

  /** What a pixel shows once the cameras below n have been drawn: its camera, the focus window, or what it showed
      before. */
  ghost predicate Shows(l: Layout, ready: seq<bool>, focus: nat, n: nat, row: int, column: int, before: Pixel,
                        now: Pixel)
    requires l.focusSize < l.windows && n <= |ready|
  {
    && (forall i :: 0 <= i < n && ready[i] && InTile(l, i, row, column) ==>
          now == Small(i, row - Top(l, i), column - Left(l, i)))
    && (focus < n && ready[focus] && l.focusSize > 1 && InFocus(l, row, column) ==> now == Focus(focus, row, column))
    && (Untouched(l, ready, focus, n, row, column) ==> now == before)
  }

  /** The pixel after camera i has been drawn over it: the focus window first, the small one after it. */
  function Drawn(l: Layout, focus: nat, i: nat, row: int, column: int, now: Pixel): Pixel
    requires l.focusSize < l.windows
  {
    if InTile(l, i, row, column) then Small(i, row - Top(l, i), column - Left(l, i))
    else if i == focus && l.focusSize > 1 && InFocus(l, row, column) then Focus(i, row, column)
    else now
  }

  lemma NothingShown(l: Layout, ready: seq<bool>, focus: nat, row: int, column: int, now: Pixel)
    requires l.focusSize < l.windows
    ensures Shows(l, ready, focus, 0, row, column, now, now)
  {
  }

  /** Drawing one camera: nothing that the others or the focus window show is overwritten. */
  lemma ShowsOneMore(l: Layout, width: nat, height: nat, ready: seq<bool>, focus: nat, n: nat, row: int, column: int,
                     before: Pixel, now: Pixel, next: Pixel)
    requires LaidOut(l, width, height) && n < |ready| == l.cameras
    requires Shows(l, ready, focus, n, row, column, before, now)
    requires next == if ready[n] then Drawn(l, focus, n, row, column, now) else now
    ensures Shows(l, ready, focus, n + 1, row, column, before, next)
  {
    hide InTile, InFocus, Top, Left, NumWindows;
    forall i | 0 <= i <= n && ready[i] && InTile(l, i, row, column)
      ensures next == Small(i, row - Top(l, i), column - Left(l, i))
    {
      TileOutsideFocus(l, width, height, i, row, column);
      if ready[n] && InTile(l, n, row, column) {
        TilesApart(l, width, height, i, n, row, column);
      }
    }
    if ready[n] && InTile(l, n, row, column) {
      TileOutsideFocus(l, width, height, n, row, column);
    }
  }

  /** The body of the loop for a camera with a new picture. */
  method DrawCamera(frame: array2<Pixel>, l: Layout, focusCamera: nat, i: nat)
    requires LaidOut(l, frame.Length1, frame.Length0) && i < l.cameras
    modifies frame
    ensures forall r, c :: 0 <= r < frame.Length0 && 0 <= c < frame.Length1 ==>
      frame[r, c] == Drawn(l, focusCamera, i, r, c, old(frame[r, c]))
  {
    TileInFrame(l, frame.Length1, frame.Length0, i);
    FocusInFrame(l, frame.Length1, frame.Length0);
    if i == focusCamera && l.focusSize > 1 {
      var bottom, right := l.tileHeight * l.focusSize, l.tileWidth * l.focusSize;
      forall r, c | 0 <= r < bottom && 0 <= c < right {
        frame[r, c] := Focus(i, r, c);
      }
    }
    var x, y := Left(l, i), Top(l, i);
    forall r, c | y <= r < y + l.tileHeight && x <= c < x + l.tileWidth {
      frame[r, c] := Small(i, r - y, c - x);
    }
  }

  /** `push_buffer`: ready says which cameras have a new picture; each shows whole in its own window. */
  method PushBuffer(frame: array2<Pixel>, ready: seq<bool>, focusCamera: nat, focusSize: nat) returns (update: bool)
    requires |ready| >= 1
    modifies frame
    ensures update <==> true in ready
    ensures var l := LayoutOf(|ready|, focusSize, frame.Length1, frame.Length0);
      forall r, c :: 0 <= r < frame.Length0 && 0 <= c < frame.Length1 ==>
        Shows(l, ready, focusCamera, |ready|, r, c, old(frame[r, c]), frame[r, c])
  {
    var width, height := frame.Length1, frame.Length0;
    var l := LayoutOf(|ready|, focusSize, width, height);
    update := false;
    hide Shows, InTile, InFocus, NumWindows;
    forall r, c | 0 <= r < height && 0 <= c < width
      ensures Shows(l, ready, focusCamera, 0, r, c, old(frame[r, c]), frame[r, c])
    {
      NothingShown(l, ready, focusCamera, r, c, frame[r, c]);
    }
    for i := 0 to |ready|
      invariant update <==> true in ready[..i]
      invariant forall r, c :: 0 <= r < height && 0 <= c < width ==>
        Shows(l, ready, focusCamera, i, r, c, old(frame[r, c]), frame[r, c])
    {
      label Before:
      if ready[i] {
        DrawCamera(frame, l, focusCamera, i);
        update := true;
      }
      forall r, c | 0 <= r < height && 0 <= c < width
        ensures Shows(l, ready, focusCamera, i + 1, r, c, old(frame[r, c]), frame[r, c])
      {
        ShowsOneMore(l, width, height, ready, focusCamera, i, r, c, old(frame[r, c]), old@Before(frame[r, c]),
          frame[r, c]);
      }
    }
  }
}
