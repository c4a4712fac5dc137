/** Frames of BGRA pixels in row-major order, cut into a grid of tiles.  A four-byte pixel
    of the source is one `Pixel`; rows are `width` pixels apart (stride == width * 4). */
module Frames {
  import opened Words
  import opened Arithmetic

  datatype Pixel = Pixel(b: u8, g: u8, r: u8, a: u8)

  /** What memset(…, 0, …) leaves. */
  const BLACK := Pixel(0, 0, 0, 0)

  datatype Grid = Grid(width: nat, height: nat, tileSize: nat)
  {
    function TilesX(): nat
      requires tileSize > 0
    {
      (width + tileSize - 1) / tileSize
    }

    function TilesY(): nat
      requires tileSize > 0
    {
      (height + tileSize - 1) / tileSize
    }

    function NumTiles(): nat
      requires tileSize > 0
    {
      TilesX() * TilesY()
    }

    function Area(): nat { width * height }
  }

  /** A rectangle of pixels: left, top, width, height. */
  datatype Box = Box(x: nat, y: nat, w: nat, h: nat)

  function TileBox(g: Grid, t: nat): Box
    requires g.tileSize > 0 && t < g.NumTiles()
  {
    TileInGrid(g, t);
    var px, py := t % g.TilesX() * g.tileSize, t / g.TilesX() * g.tileSize;
    Box(px, py, Min(g.tileSize, g.width - px), Min(g.tileSize, g.height - py))
  }

  ghost predicate Inside(b: Box, g: Grid) { b.x + b.w <= g.width && b.y + b.h <= g.height }

  lemma CeilDiv(n: nat, d: nat, k: nat)
    requires d > 0
    ensures k < (n + d - 1) / d <==> k * d < n
  {
    var q := (n + d - 1) / d;
    assert q * d <= n + d - 1 < q * d + d;
    if k < q {
      MulMonotone(k + 1, q, d);
    } else {
      MulMonotone(q, k, d);
    }
  }

  /** Every tile starts inside the frame, so it is not empty. */
  lemma TileInGrid(g: Grid, t: nat)
    requires g.tileSize > 0 && t < g.NumTiles()
    ensures g.TilesX() > 0 && t / g.TilesX() < g.TilesY()
    ensures 0 <= t % g.TilesX() * g.tileSize < g.width && 0 <= t / g.TilesX() * g.tileSize < g.height
  {
    var n, m, d := g.TilesX(), g.TilesY(), g.tileSize;
    RowOf(n, m, t);
    var tx, ty := t % n, t / n;
    CeilDiv(g.width, d, tx);
    CeilDiv(g.height, d, ty);
    MulMonotone(0, tx, d);
    MulMonotone(0, ty, d);
  }

  lemma TileBoxInside(g: Grid, t: nat)
    requires g.tileSize > 0 && t < g.NumTiles()
    ensures var b := TileBox(g, t);
      Inside(b, g) && 1 <= b.w <= g.tileSize && 1 <= b.h <= g.tileSize
  {
    TileInGrid(g, t);
  }

  // ---- Cutting and painting ----

  lemma AtInFrame(g: Grid, b: Box, i: nat)
    requires Inside(b, g) && i < b.w * b.h
    ensures b.w > 0 && b.x + i % b.w < g.width && b.y + i / b.w < g.height
    ensures 0 <= (b.y + i / b.w) * g.width + (b.x + i % b.w) < g.Area()
  {
    RowOf(b.w, b.h, i);
    Position(g.width, g.height, b.y + i / b.w, b.x + i % b.w);
  }

  /** The pixels of a box, row by row. */
  function Cut<T>(frame: seq<T>, g: Grid, b: Box): (tile: seq<T>)
    requires |frame| == g.Area() && Inside(b, g)
    ensures |tile| == b.w * b.h
  {
    seq(b.w * b.h, i requires 0 <= i < b.w * b.h =>
      AtInFrame(g, b, i); frame[(b.y + i / b.w) * g.width + (b.x + i % b.w)])
  }

  ghost predicate Covers(b: Box, x: int, y: int) { b.x <= x < b.x + b.w && b.y <= y < b.y + b.h }

  lemma WithinBox(b: Box, x: int, y: int)
    requires Covers(b, x, y)
    ensures 0 <= (y - b.y) * b.w + (x - b.x) < b.w * b.h
    ensures ((y - b.y) * b.w + (x - b.x)) % b.w == x - b.x && ((y - b.y) * b.w + (x - b.x)) / b.w == y - b.y
  {
    Position(b.w, b.h, y - b.y, x - b.x);
  }

  /** The frame with the box overwritten by a tile. */
  ghost function Paint<T>(frame: seq<T>, g: Grid, b: Box, tile: seq<T>): (r: seq<T>)
    requires |frame| == g.Area() && Inside(b, g) && |tile| == b.w * b.h
    ensures |r| == |frame|
  {
    seq(|frame|, j requires 0 <= j < |frame| => PaintedAt(frame, g, b, tile, j))
  }

  ghost function PaintedAt<T>(frame: seq<T>, g: Grid, b: Box, tile: seq<T>, j: nat): T
    requires |frame| == g.Area() && Inside(b, g) && |tile| == b.w * b.h && j < |frame|
  {
    RowOf(g.width, g.height, j);
    var x, y := j % g.width, j / g.width;
    if Covers(b, x, y) then
      WithinBox(b, x, y);
      tile[(y - b.y) * b.w + (x - b.x)]
    else frame[j]
  }

  /** Position i of a cut, as a pixel (x, y) of the frame. */
  lemma CutAt<T>(frame: seq<T>, g: Grid, c: Box, i: nat, x: nat, y: nat)
    requires |frame| == g.Area() && Inside(c, g) && i < c.w * c.h
    requires c.w > 0 && x == c.x + i % c.w && y == c.y + i / c.w
    ensures Covers(c, x, y) && (y - c.y) * c.w + (x - c.x) == i
    ensures x < g.width && y < g.height && 0 <= y * g.width + x < |frame|
    ensures (y * g.width + x) % g.width == x && (y * g.width + x) / g.width == y
    ensures Cut(frame, g, c)[i] == frame[y * g.width + x]
  {
    AtInFrame(g, c, i);
    RowOf(c.w, c.h, i);
    Position(g.width, g.height, y, x);
  }

  lemma PaintAt<T>(frame: seq<T>, g: Grid, b: Box, tile: seq<T>, x: nat, y: nat)
    requires |frame| == g.Area() && Inside(b, g) && |tile| == b.w * b.h
    requires x < g.width && y < g.height && 0 <= y * g.width + x < |frame|
    requires (y * g.width + x) % g.width == x && (y * g.width + x) / g.width == y
    ensures Covers(b, x, y) ==> 0 <= (y - b.y) * b.w + (x - b.x) < |tile|
    ensures Covers(b, x, y) ==> Paint(frame, g, b, tile)[y * g.width + x] == tile[(y - b.y) * b.w + (x - b.x)]
    ensures !Covers(b, x, y) ==> Paint(frame, g, b, tile)[y * g.width + x] == frame[y * g.width + x]
  {
    if Covers(b, x, y) {
      WithinBox(b, x, y);
    }
  }

  lemma CutPaintSame<T>(frame: seq<T>, g: Grid, b: Box, tile: seq<T>)
    requires |frame| == g.Area() && Inside(b, g) && |tile| == b.w * b.h
    ensures Cut(Paint(frame, g, b, tile), g, b) == tile
  {
    forall i | 0 <= i < |tile|
      ensures Cut(Paint(frame, g, b, tile), g, b)[i] == tile[i]
    {
      CutPaintSameAt(frame, g, b, tile, i);
    }
  }

  lemma CutPaintSameAt<T>(frame: seq<T>, g: Grid, b: Box, tile: seq<T>, i: nat)
    requires |frame| == g.Area() && Inside(b, g) && |tile| == b.w * b.h && i < |tile|
    ensures Cut(Paint(frame, g, b, tile), g, b)[i] == tile[i]
  {
    AtInFrame(g, b, i);
    RowOf(b.w, b.h, i);
    var x, y := b.x + i % b.w, b.y + i / b.w;
    CutAt(Paint(frame, g, b, tile), g, b, i, x, y);
    PaintAt(frame, g, b, tile, x, y);
  }

  ghost predicate Disjoint(a: Box, b: Box)
  {
    a.x + a.w <= b.x || b.x + b.w <= a.x || a.y + a.h <= b.y || b.y + b.h <= a.y
  }

  lemma CutPaintOther<T>(frame: seq<T>, g: Grid, b: Box, tile: seq<T>, c: Box)
    requires |frame| == g.Area() && Inside(b, g) && |tile| == b.w * b.h && Inside(c, g) && Disjoint(b, c)
    ensures Cut(Paint(frame, g, b, tile), g, c) == Cut(frame, g, c)
  {
    forall i | 0 <= i < c.w * c.h
      ensures Cut(Paint(frame, g, b, tile), g, c)[i] == Cut(frame, g, c)[i]
    {
      CutPaintOtherAt(frame, g, b, tile, c, i);
    }
  }

  lemma CutPaintOtherAt<T>(frame: seq<T>, g: Grid, b: Box, tile: seq<T>, c: Box, i: nat)
    requires |frame| == g.Area() && Inside(b, g) && |tile| == b.w * b.h && Inside(c, g) && Disjoint(b, c)
    requires i < c.w * c.h
    ensures Cut(Paint(frame, g, b, tile), g, c)[i] == Cut(frame, g, c)[i]
  {
    AtInFrame(g, c, i);
    RowOf(c.w, c.h, i);
    var x, y := c.x + i % c.w, c.y + i / c.w;
    CutAt(Paint(frame, g, b, tile), g, c, i, x, y);
    CutAt(frame, g, c, i, x, y);
    PaintAt(frame, g, b, tile, x, y);
  }

  lemma GridApart(a: nat, b: nat, d: nat)
    requires d > 0 && a < b
    ensures a * d + d <= b * d
  {
    MulMonotone(a + 1, b, d);
  }

  lemma TilesDisjoint(g: Grid, s: nat, t: nat)
    requires g.tileSize > 0 && s < g.NumTiles() && t < g.NumTiles() && s != t
    ensures Disjoint(TileBox(g, s), TileBox(g, t))
  {
    var n, d := g.TilesX(), g.tileSize;
    TileInGrid(g, s);
    TileInGrid(g, t);
    RowOf(n, g.TilesY(), s);
    RowOf(n, g.TilesY(), t);
    if s / n < t / n {
      GridApart(s / n, t / n, d);
    } else if t / n < s / n {
      GridApart(t / n, s / n, d);
    } else if s % n < t % n {
      GridApart(s % n, t % n, d);
    } else {
      GridApart(t % n, s % n, d);
    }
  }

  /** The tile that owns a pixel. */
  lemma OwnerOf(g: Grid, x: nat, y: nat) returns (t: nat)
    requires g.tileSize > 0 && x < g.width && y < g.height
    ensures t < g.NumTiles() && Covers(TileBox(g, t), x, y)
  {
    var d, n := g.tileSize, g.TilesX();
    var tx, ty := x / d, y / d;
    CeilDiv(g.width, d, tx);
    CeilDiv(g.height, d, ty);
    assert tx * d + x % d == x && ty * d + y % d == y;
    t := ty * n + tx;
    Position(n, g.TilesY(), ty, tx);
  }

  /** A frame is determined by its tiles. */
  lemma TilesDetermineFrame<T>(g: Grid, f1: seq<T>, f2: seq<T>)
    requires g.tileSize > 0 && |f1| == g.Area() && |f2| == g.Area()
    requires forall t :: 0 <= t < g.NumTiles() ==> SameTile(g, f1, f2, t)
    ensures f1 == f2
  {
    forall j | 0 <= j < |f1|
      ensures f1[j] == f2[j]
    {
      RowOf(g.width, g.height, j);
      var x, y := j % g.width, j / g.width;
      var t := OwnerOf(g, x, y);
      assert SameTile(g, f1, f2, t);
      PixelOfTile(g, f1, t, x, y);
      PixelOfTile(g, f2, t, x, y);
    }
  }

  ghost predicate SameTile<T>(g: Grid, f1: seq<T>, f2: seq<T>, t: nat)
    requires g.tileSize > 0 && |f1| == g.Area() && |f2| == g.Area() && t < g.NumTiles()
  {
    TileBoxInside(g, t);
    Cut(f1, g, TileBox(g, t)) == Cut(f2, g, TileBox(g, t))
  }

  lemma PixelOfTile<T>(g: Grid, f: seq<T>, t: nat, x: nat, y: nat)
    requires g.tileSize > 0 && |f| == g.Area() && t < g.NumTiles() && x < g.width && y < g.height
    requires Covers(TileBox(g, t), x, y)
    ensures var b := TileBox(g, t); Inside(b, g)
    ensures var b := TileBox(g, t);
      0 <= y * g.width + x < |f| && 0 <= (y - b.y) * b.w + (x - b.x) < b.w * b.h
      && Cut(f, g, b)[(y - b.y) * b.w + (x - b.x)] == f[y * g.width + x]
  {
    TileBoxInside(g, t);
    WithinBox(TileBox(g, t), x, y);
    Position(g.width, g.height, y, x);
  }

  // ---- Painting every tile ----

  function TileArea(g: Grid, t: nat): nat
    requires g.tileSize > 0 && t < g.NumTiles()
  {
    TileBox(g, t).w * TileBox(g, t).h
  }

  ghost predicate Fitting<T>(g: Grid, tiles: seq<seq<T>>)
  {
    && g.tileSize > 0 && |tiles| == g.NumTiles()
    && forall t :: 0 <= t < |tiles| ==> |tiles[t]| == TileArea(g, t)
  }

  ghost function PaintTiles<T>(frame: seq<T>, g: Grid, tiles: seq<seq<T>>, n: nat): (r: seq<T>)
    requires Fitting(g, tiles) && |frame| == g.Area() && n <= |tiles|
    ensures |r| == |frame|
  {
    if n == 0 then frame
    else
      TileBoxInside(g, n - 1);
      Paint(PaintTiles(frame, g, tiles, n - 1), g, TileBox(g, n - 1), tiles[n - 1])
  }

  lemma {:induction false} TilePainted<T>(frame: seq<T>, g: Grid, tiles: seq<seq<T>>, n: nat, t: nat)
    requires Fitting(g, tiles) && |frame| == g.Area() && t < n <= |tiles|
    ensures Inside(TileBox(g, t), g)
    ensures Cut(PaintTiles(frame, g, tiles, n), g, TileBox(g, t)) == tiles[t]
  {
    TileBoxInside(g, t);
    TileBoxInside(g, n - 1);
    var before := PaintTiles(frame, g, tiles, n - 1);
    if t == n - 1 {
      CutPaintSame(before, g, TileBox(g, t), tiles[t]);
    } else {
      TilesDisjoint(g, n - 1, t);
      CutPaintOther(before, g, TileBox(g, n - 1), tiles[n - 1], TileBox(g, t));
      TilePainted(frame, g, tiles, n - 1, t);
    }
  }

  /** What was in the frame before does not matter: the tiles cover it. */
  lemma PaintedFromScratch<T>(f1: seq<T>, f2: seq<T>, g: Grid, tiles: seq<seq<T>>)
    requires Fitting(g, tiles) && |f1| == g.Area() && |f2| == g.Area()
    ensures PaintTiles(f1, g, tiles, |tiles|) == PaintTiles(f2, g, tiles, |tiles|)
  {
    var r1, r2 := PaintTiles(f1, g, tiles, |tiles|), PaintTiles(f2, g, tiles, |tiles|);
    forall t | 0 <= t < g.NumTiles()
      ensures SameTile(g, r1, r2, t)
    {
      TilePainted(f1, g, tiles, |tiles|, t);
      TilePainted(f2, g, tiles, |tiles|, t);
    }
    TilesDetermineFrame(g, r1, r2);
  }

  // ---- Painting pixel by pixel ----

  /** Pixel j once the rows before `row`, and the first `col` pixels of that row, are painted. */
  ghost function PartAt<T>(frame: seq<T>, g: Grid, b: Box, tile: seq<T>, row: nat, col: nat, j: nat): T
    requires |frame| == g.Area() && Inside(b, g) && |tile| == b.w * b.h && j < |frame|
  {
    RowOf(g.width, g.height, j);
    var x, y := j % g.width - b.x, j / g.width - b.y;
    if Covers(b, j % g.width, j / g.width) && (y < row || (y == row && x < col)) then
      WithinBox(b, j % g.width, j / g.width);
      tile[y * b.w + x]
    else frame[j]
  }

  ghost predicate Part<T>(frame: seq<T>, now: seq<T>, g: Grid, b: Box, tile: seq<T>, row: nat, col: nat)
    requires |frame| == g.Area() && Inside(b, g) && |tile| == b.w * b.h
  {
    |now| == |frame| && forall j :: 0 <= j < |frame| ==> now[j] == PartAt(frame, g, b, tile, row, col, j)
  }

  lemma PixelInRow(g: Grid, b: Box, row: nat, col: nat, idx: int, at: int)
    requires Inside(b, g) && row < b.h && col < b.w
    requires idx == row * b.w + col && at == (b.y + row) * g.width + (b.x + col)
    ensures 0 <= idx < b.w * b.h && 0 <= at < g.Area()
    ensures idx % b.w == col && idx / b.w == row
    ensures at % g.width == b.x + col && at / g.width == b.y + row
  {
    Position(b.w, b.h, row, col);
    Position(g.width, g.height, b.y + row, b.x + col);
  }

  lemma PartStep<T>(frame: seq<T>, now: seq<T>, g: Grid, b: Box, tile: seq<T>, row: nat, col: nat, idx: int, at: int)
    requires |frame| == g.Area() && Inside(b, g) && |tile| == b.w * b.h
    requires row < b.h && col < b.w && Part(frame, now, g, b, tile, row, col)
    requires idx == row * b.w + col && at == (b.y + row) * g.width + (b.x + col)
    ensures 0 <= idx < |tile| && 0 <= at < |now| && Part(frame, now[at := tile[idx]], g, b, tile, row, col + 1)
  {
    PixelInRow(g, b, row, col, idx, at);
    var next := now[at := tile[idx]];
    forall j | 0 <= j < |frame|
      ensures next[j] == PartAt(frame, g, b, tile, row, col + 1, j)
    {
      RowOf(g.width, g.height, j);
      RowOf(g.width, g.height, at);
    }
  }

  lemma PartRow<T>(frame: seq<T>, now: seq<T>, g: Grid, b: Box, tile: seq<T>, row: nat)
    requires |frame| == g.Area() && Inside(b, g) && |tile| == b.w * b.h
    requires Part(frame, now, g, b, tile, row, b.w)
    ensures Part(frame, now, g, b, tile, row + 1, 0)
  {
    forall j | 0 <= j < |frame|
      ensures now[j] == PartAt(frame, g, b, tile, row + 1, 0, j)
    {
      assert PartAt(frame, g, b, tile, row, b.w, j) == PartAt(frame, g, b, tile, row + 1, 0, j);
    }
  }

  lemma PartStart<T>(frame: seq<T>, g: Grid, b: Box, tile: seq<T>)
    requires |frame| == g.Area() && Inside(b, g) && |tile| == b.w * b.h
    ensures Part(frame, frame, g, b, tile, 0, 0)
  {
  }

  lemma PartDone<T>(frame: seq<T>, now: seq<T>, g: Grid, b: Box, tile: seq<T>)
    requires |frame| == g.Area() && Inside(b, g) && |tile| == b.w * b.h
    requires Part(frame, now, g, b, tile, b.h, 0)
    ensures now == Paint(frame, g, b, tile)
  {
    forall j | 0 <= j < |frame|
      ensures now[j] == Paint(frame, g, b, tile)[j]
    {
      assert PartAt(frame, g, b, tile, b.h, 0, j) == PaintedAt(frame, g, b, tile, j);
    }
  }
}
