/** The block loops of lossy tiles, src/codec/omni/tile_encoder.cpp:376-414 and
    src/codec/omni/tile_decoder.cpp:328-361: every whole block of a plane is transformed in
    place; what is left at the right and lower edge stays as it is. */
module Blocks {
  import opened Words
  import opened Arithmetic
  import opened Frames
  import opened Buffers
  import Dct
  import Orthogonal
  import DctLoss
  import DctLoops

  /** The 8x8 and 16x16 cosine tables, whatever their entries; missing entries are zero. */
  datatype CosTables = CosTables(eight: seq<int>, sixteen: seq<int>)

  predicate IsBlockSize(n: nat) { n == 4 || n == 8 || n == 16 }

  function Padded(s: seq<int>, n: nat): (r: seq<int>)
    ensures |r| == n
  {
    seq(n, i requires 0 <= i < n => if i < |s| then s[i] else 0)
  }

  function CosTableFor(tables: CosTables, n: nat): (t: seq<int>)
    requires IsBlockSize(n)
    ensures Dct.IsTable(t, n)
  {
    if n == 4 then Dct.TABLE4 else if n == 8 then Padded(tables.eight, 64) else Padded(tables.sixteen, 256)
  }

  /** One block to coefficients and quantised, or back. */
  function BlockOut(t: seq<int>, n: nat, b: seq<int>, qp: nat, forward: bool): (r: seq<i16>)
    requires Dct.IsTable(t, n) && |b| == n * n
    ensures |r| == n * n
  {
    if forward then Dct.Quantised(Dct.Forward(t, n, b), n, qp) else Dct.Inverse(t, n, Dct.Dequantised(b, n, qp))
  }

  // ---- A plane as a grid of blocks ----

  ghost predicate Whole(g: Grid, t: nat)
    requires g.tileSize > 0 && t < g.NumTiles()
  {
    TileBox(g, t).w == g.tileSize && TileBox(g, t).h == g.tileSize
  }

  ghost function OutAt(tables: CosTables, g: Grid, plane: seq<i16>, qp: nat, forward: bool, t: nat): (r: seq<i16>)
    requires IsBlockSize(g.tileSize) && |plane| == g.Area() && t < g.NumTiles()
    ensures |r| == TileArea(g, t)
  {
    TileBoxInside(g, t);
    var b := Cut(plane, g, TileBox(g, t));
    if Whole(g, t) then BlockOut(CosTableFor(tables, g.tileSize), g.tileSize, b, qp, forward) else b
  }

  ghost function OutTiles(tables: CosTables, g: Grid, plane: seq<i16>, qp: nat, forward: bool): (tiles: seq<seq<i16>>)
    requires IsBlockSize(g.tileSize) && |plane| == g.Area()
    ensures Fitting(g, tiles)
  {
    seq(g.NumTiles(), t requires 0 <= t < g.NumTiles() => OutAt(tables, g, plane, qp, forward, t))
  }

  /** The plane with every whole block replaced; the grid's tiles are the blocks. */
  ghost function PlaneOut(tables: CosTables, g: Grid, plane: seq<i16>, qp: nat, forward: bool): (r: seq<i16>)
    requires IsBlockSize(g.tileSize) && |plane| == g.Area()
    ensures |r| == g.Area()
  {
    PaintTiles(plane, g, OutTiles(tables, g, plane, qp, forward), g.NumTiles())
  }

  lemma PaintNothing<T>(frame: seq<T>, g: Grid, b: Box)
    requires |frame| == g.Area() && Inside(b, g)
    ensures Paint(frame, g, b, Cut(frame, g, b)) == frame
  {
    forall j | 0 <= j < |frame|
      ensures Paint(frame, g, b, Cut(frame, g, b))[j] == frame[j]
    {
      PaintedBack(frame, g, b, j);
    }
  }

  lemma PaintedBack<T>(frame: seq<T>, g: Grid, b: Box, j: nat)
    requires |frame| == g.Area() && Inside(b, g) && j < |frame|
    ensures PaintedAt(frame, g, b, Cut(frame, g, b), j) == frame[j]
  {
    RowOf(g.width, g.height, j);
    var x, y := j % g.width, j / g.width;
    if Covers(b, x, y) {
      WithinBox(b, x, y);
      CutAt(frame, g, b, (y - b.y) * b.w + (x - b.x), x, y);
    }
  }

  /** Painting the tiles before n leaves tile t >= n alone. */
  lemma {:induction false} Untouched<T>(frame: seq<T>, g: Grid, tiles: seq<seq<T>>, n: nat, t: nat)
    requires Fitting(g, tiles) && |frame| == g.Area() && n <= t < |tiles|
    ensures Inside(TileBox(g, t), g)
    ensures Cut(PaintTiles(frame, g, tiles, n), g, TileBox(g, t)) == Cut(frame, g, TileBox(g, t))
  {
    TileBoxInside(g, t);
    if n > 0 {
      Untouched(frame, g, tiles, n - 1, t);
      TileBoxInside(g, n - 1);
      TilesDisjoint(g, n - 1, t);
      CutPaintOther(PaintTiles(frame, g, tiles, n - 1), g, TileBox(g, n - 1), tiles[n - 1], TileBox(g, t));
    }
  }

  /** A tile that stays as it is may be painted or not. */
  lemma PaintSame<T>(plane: seq<T>, g: Grid, tiles: seq<seq<T>>, t: nat, next: nat)
    requires Fitting(g, tiles) && |plane| == g.Area() && t < |tiles| && next == t + 1
    requires Inside(TileBox(g, t), g) && tiles[t] == Cut(plane, g, TileBox(g, t))
    ensures PaintTiles(plane, g, tiles, next) == PaintTiles(plane, g, tiles, t)
  {
    Untouched(plane, g, tiles, t, t);
    PaintNothing(PaintTiles(plane, g, tiles, t), g, TileBox(g, t));
  }

  lemma OutStays(tables: CosTables, g: Grid, plane: seq<i16>, qp: nat, forward: bool, t: nat)
    requires IsBlockSize(g.tileSize) && |plane| == g.Area() && t < g.NumTiles() && !Whole(g, t)
    ensures Inside(TileBox(g, t), g)
    ensures OutTiles(tables, g, plane, qp, forward)[t] == Cut(plane, g, TileBox(g, t))
  {
    TileBoxInside(g, t);
  }

  lemma SkipOne(tables: CosTables, g: Grid, plane: seq<i16>, qp: nat, forward: bool, t: nat, next: nat,
                tiles: seq<seq<i16>>)
    requires IsBlockSize(g.tileSize) && |plane| == g.Area() && t < g.NumTiles() && !Whole(g, t) && next == t + 1
    requires tiles == OutTiles(tables, g, plane, qp, forward)
    ensures PaintTiles(plane, g, tiles, next) == PaintTiles(plane, g, tiles, t)
  {
    OutStays(tables, g, plane, qp, forward, t);
    PaintSame(plane, g, tiles, t, next);
  }

  /** The tiles from n up to m are all cut off by the edge. */
  ghost predicate NoneWhole(g: Grid, n: nat, m: nat)
    requires g.tileSize > 0 && m <= g.NumTiles()
  {
    forall t :: n <= t < m ==> !Whole(g, t)
  }

  lemma {:induction false} SkipTiles(tables: CosTables, g: Grid, plane: seq<i16>, qp: nat, forward: bool, n: nat,
                                     m: nat, tiles: seq<seq<i16>>)
    requires IsBlockSize(g.tileSize) && |plane| == g.Area() && n <= m <= g.NumTiles()
    requires NoneWhole(g, n, m)
    requires tiles == OutTiles(tables, g, plane, qp, forward)
    ensures PaintTiles(plane, g, tiles, n) == PaintTiles(plane, g, tiles, m)
    decreases m
  {
    if n < m {
      var k: nat := m - 1;
      SkipTiles(tables, g, plane, qp, forward, n, k, tiles);
      SkipOne(tables, g, plane, qp, forward, k, m, tiles);
    }
  }

  // ---- The loops ----

  lemma BlockInGrid(g: Grid, row: nat, col: nat)
    requires g.tileSize > 0 && row < g.height / g.tileSize && col < g.width / g.tileSize
    ensures col < g.TilesX() && row < g.TilesY()
    ensures (col + 1) * g.tileSize <= g.width && (row + 1) * g.tileSize <= g.height
  {
    MulMonotone(col + 1, g.width / g.tileSize, g.tileSize);
    MulMonotone(row + 1, g.height / g.tileSize, g.tileSize);
    CeilDiv(g.width, g.tileSize, col);
    CeilDiv(g.height, g.tileSize, row);
  }

  lemma WholeTile(g: Grid, row: nat, col: nat, t: nat)
    requires g.tileSize > 0 && row < g.height / g.tileSize && col < g.width / g.tileSize && t == row * g.TilesX() + col
    ensures t < g.NumTiles()
    ensures TileBox(g, t) == Box(col * g.tileSize, row * g.tileSize, g.tileSize, g.tileSize) && Inside(TileBox(g, t), g)
  {
    BlockInGrid(g, row, col);
    Position(g.TilesX(), g.TilesY(), row, col);
    TileBoxInside(g, t);
    BoxOf(g, t, row, col);
  }

  lemma BoxOf(g: Grid, t: nat, row: nat, col: nat)
    requires g.tileSize > 0 && t < g.NumTiles() && t % g.TilesX() == col && t / g.TilesX() == row
    requires (col + 1) * g.tileSize <= g.width && (row + 1) * g.tileSize <= g.height
    ensures TileBox(g, t) == Box(col * g.tileSize, row * g.tileSize, g.tileSize, g.tileSize)
  {
    NextRow(g.tileSize, col);
    NextRow(g.tileSize, row);
  }

  lemma NotWhole(g: Grid, t: nat)
    requires g.tileSize > 0 && t < g.NumTiles()
    requires t % g.TilesX() >= g.width / g.tileSize || t / g.TilesX() >= g.height / g.tileSize
    ensures !Whole(g, t)
  {
    TileInGrid(g, t);
    var n, x, y := g.tileSize, t % g.TilesX(), t / g.TilesX();
    if x >= g.width / n {
      Beyond(g.width, n, x);
    } else {
      Beyond(g.height, n, y);
    }
  }

  lemma Beyond(w: nat, n: nat, k: nat)
    requires n > 0 && k >= w / n
    ensures w - k * n < n
  {
    MulMonotone(w / n, k, n);
  }

  lemma SampleOf(plane: seq<i16>, g: Grid, b: Box, y: nat, x: nat, idx: int, at: int)
    requires |plane| == g.Area() && Inside(b, g) && y < b.h && x < b.w
    requires idx == y * b.w + x && at == (b.y + y) * g.width + (b.x + x)
    ensures 0 <= idx < b.w * b.h && 0 <= at < |plane| && Cut(plane, g, b)[idx] == plane[at]
  {
    PixelInRow(g, b, y, x, idx, at);
    CutAt(plane, g, b, idx, b.x + x, b.y + y);
  }

  method ExtractRow(plane: seq<i16>, ghost g: Grid, b: Box, stride: nat, y: nat, block: array<i16>,
                    ghost spec: seq<i16>, base: nat)
    requires |plane| == g.Area() && Inside(b, g) && stride == g.width && y < b.h && spec == Cut(plane, g, b)
    requires base == y * b.w && Filled(block[..], spec, base)
    modifies block
    ensures Filled(block[..], spec, base + b.w)
  {
    for x := 0 to b.w
      invariant Filled(block[..], spec, base + x)
    {
      SampleOf(plane, g, b, y, x, base + x, (b.y + y) * stride + (b.x + x));
      ghost var now := block[..];
      FilledStep(now, spec, base + x);
      block[base + x] := plane[(b.y + y) * stride + (b.x + x)];
      assert block[..] == now[base + x := spec[base + x]];
    }
  }

  method Extract(plane: seq<i16>, ghost g: Grid, b: Box, stride: nat) returns (block: array<i16>)
    requires |plane| == g.Area() && Inside(b, g) && stride == g.width
    ensures fresh(block) && block[..] == Cut(plane, g, b)
  {
    MulMonotone(0, b.w, b.h);
    block := new i16[b.w * b.h];
    ghost var spec := Cut(plane, g, b);
    var base: nat := 0;
    for y := 0 to b.h
      invariant base == y * b.w && Filled(block[..], spec, base)
    {
      RowFits(b.w, b.h, y, base);
      ExtractRow(plane, g, b, stride, y, block, spec, base);
      base := base + b.w;
    }
    FilledAll(block[..], spec, base);
  }

  method WriteBack(ch: array<i16>, block: seq<i16>, ghost g: Grid, b: Box, stride: nat)
    requires ch.Length == g.Area() && Inside(b, g) && stride == g.width && |block| == b.w * b.h
    modifies ch
    ensures ch[..] == Paint(old(ch[..]), g, b, block)
  {
    ghost var before := ch[..];
    PartStart(before, g, b, block);
    for y := 0 to b.h
      invariant Part(before, ch[..], g, b, block, y, 0)
    {
      for x := 0 to b.w
        invariant Part(before, ch[..], g, b, block, y, x)
      {
        var at := (b.y + y) * stride + (b.x + x);
        ghost var now := ch[..];
        PartStep(before, now, g, b, block, y, x, y * b.w + x, at);
        ch[at] := block[y * b.w + x];
        assert ch[..] == now[at := block[y * b.w + x]];
      }
      PartRow(before, ch[..], g, b, block, y);
    }
    PartDone(before, ch[..], g, b, block);
  }

  /** Transform and quantisation of one extracted block. */
  method ForwardBlock(block: array<i16>, n: nat, qp: nat, cosTable: seq<int>) returns (coeffs: array<i16>)
    requires Dct.IsTable(cosTable, n) && block.Length == n * n
    ensures fresh(coeffs) && coeffs[..] == BlockOut(cosTable, n, block[..], qp, true)
  {
    assert (n - 1) * n + n == n * n;
    coeffs := new i16[n * n](_ => 0);
    ghost var zero, b := coeffs[..], block[..];
    BlockIsWhole(b, n);
    DctLoops.DctForward(block[..], n, coeffs, n, n, cosTable);
    DctLoops.Whole(zero, coeffs[..], Dct.Forward(cosTable, n, b), n);
    ghost var transformed := coeffs[..];
    DctLoops.Quantize(coeffs, n, n, qp);
    DctLoops.Whole(transformed, coeffs[..], Dct.Quantised(transformed, n, qp), n);
  }

  method InverseBlock(coeffs: array<i16>, n: nat, qp: nat, cosTable: seq<int>) returns (block: array<i16>)
    requires Dct.IsTable(cosTable, n) && coeffs.Length == n * n
    modifies coeffs
    ensures fresh(block) && block[..] == BlockOut(cosTable, n, old(coeffs[..]), qp, false)
  {
    assert (n - 1) * n + n == n * n;
    ghost var c := coeffs[..];
    BlockIsWhole(c, n);
    DctLoops.Dequantize(coeffs, n, n, qp);
    DctLoops.Whole(c, coeffs[..], Dct.Dequantised(c, n, qp), n);
    block := new i16[n * n](_ => 0);
    ghost var zero := block[..];
    DctLoops.DctInverse(coeffs[..], n, block, n, n, cosTable);
    DctLoops.Whole(zero, block[..], Dct.Inverse(cosTable, n, coeffs[..]), n);
  }

  lemma BlockIsWhole(b: seq<int>, n: nat)
    requires n > 0 && |b| == n * n
    ensures DctLoops.Holds(n, n, |b|) && DctLoops.BlockOf(b, n, n) == b
  {
    assert (n - 1) * n + n == n * n;
    forall j | 0 <= j < n * n
      ensures DctLoops.BlockOf(b, n, n)[j] == b[j]
    {
      RowOf(n, n, j);
    }
  }

  /** Extract, transform, write back: one turn of the inner loop of either side. */
  method OneBlock(ch: array<i16>, ghost g: Grid, b: Box, stride: nat, n: nat, qp: nat, cosTable: seq<int>,
                  forward: bool)
    requires ch.Length == g.Area() && Inside(b, g) && stride == g.width && b.w == n == b.h && Dct.IsTable(cosTable, n)
    modifies ch
    ensures ch[..] == Paint(old(ch[..]), g, b, BlockOut(cosTable, n, Cut(old(ch[..]), g, b), qp, forward))
  {
    var block := Extract(ch[..], g, b, stride);
    var result: array<i16>;
    if forward {
      result := ForwardBlock(block, n, qp, cosTable);
    } else {
      result := InverseBlock(block, n, qp, cosTable);
    }
    WriteBack(ch, result[..], g, b, stride);
  }

  lemma NextBlock(tables: CosTables, g: Grid, plane: seq<i16>, qp: nat, forward: bool, row: nat, col: nat, t: nat,
                  now: seq<i16>)
    requires IsBlockSize(g.tileSize) && |plane| == g.Area()
    requires row < g.height / g.tileSize && col < g.width / g.tileSize && t == row * g.TilesX() + col < g.NumTiles()
    requires now == PaintTiles(plane, g, OutTiles(tables, g, plane, qp, forward), t)
    ensures var b := TileBox(g, t);
      && Inside(b, g) && b == Box(col * g.tileSize, row * g.tileSize, g.tileSize, g.tileSize)
      && Paint(now, g, b, BlockOut(CosTableFor(tables, g.tileSize), g.tileSize, Cut(now, g, b), qp, forward))
           == PaintTiles(plane, g, OutTiles(tables, g, plane, qp, forward), t + 1)
  {
    WholeTile(g, row, col, t);
    Untouched(plane, g, OutTiles(tables, g, plane, qp, forward), t, t);
  }

  /** The blocks missing at the end of a row are the ones that stay as they are. */
  lemma RowEnds(tables: CosTables, g: Grid, plane: seq<i16>, qp: nat, forward: bool, row: nat, n: nat, m: nat)
    requires IsBlockSize(g.tileSize) && |plane| == g.Area() && row < g.TilesY()
    requires n == row * g.TilesX() + g.width / g.tileSize && m == row * g.TilesX() + g.TilesX()
    ensures n <= m <= g.NumTiles()
    ensures PaintTiles(plane, g, OutTiles(tables, g, plane, qp, forward), n)
         == PaintTiles(plane, g, OutTiles(tables, g, plane, qp, forward), m)
  {
    WholeFits(g.width, g.tileSize);
    RowInGrid(g, row, m);
    forall t | n <= t < m
      ensures !Whole(g, t)
    {
      EdgeTile(g, row, t);
    }
    SkipTiles(tables, g, plane, qp, forward, n, m, OutTiles(tables, g, plane, qp, forward));
  }

  lemma RowInGrid(g: Grid, row: nat, m: nat)
    requires g.tileSize > 0 && row < g.TilesY() && m == row * g.TilesX() + g.TilesX()
    ensures m <= g.NumTiles()
  {
    MulMonotone(row + 1, g.TilesY(), g.TilesX());
  }

  lemma EdgeTile(g: Grid, row: nat, t: nat)
    requires g.tileSize > 0 && t < g.NumTiles()
    requires row * g.TilesX() + g.width / g.tileSize <= t < row * g.TilesX() + g.TilesX()
    ensures !Whole(g, t)
  {
    EdgeColumn(t, g.TilesX(), g.width / g.tileSize, row, row * g.TilesX());
    NotWhole(g, t);
  }

  lemma EdgeColumn(t: nat, tilesX: nat, whole: nat, row: nat, start: nat)
    requires start == row * tilesX && start + whole <= t < start + tilesX
    ensures t % tilesX >= whole
  {
    DivUnique(t, tilesX, row, t - start);
  }

  lemma WholeFits(w: nat, n: nat)
    requires n > 0
    ensures w / n <= (w + n - 1) / n
  {
    if w / n > (w + n - 1) / n {
      CeilDiv(w, n, (w + n - 1) / n);
      MulMonotone((w + n - 1) / n + 1, w / n, n);
    }
  }

  /** Below the last whole row nothing changes. */
  lemma RowsEnd(tables: CosTables, g: Grid, plane: seq<i16>, qp: nat, forward: bool, n: nat)
    requires IsBlockSize(g.tileSize) && |plane| == g.Area() && n == g.height / g.tileSize * g.TilesX()
    ensures n <= g.NumTiles()
    ensures PaintTiles(plane, g, OutTiles(tables, g, plane, qp, forward), n)
         == PaintTiles(plane, g, OutTiles(tables, g, plane, qp, forward), g.NumTiles())
  {
    WholeFits(g.height, g.tileSize);
    MulMonotone(g.height / g.tileSize, g.TilesY(), g.TilesX());
    forall t | n <= t < g.NumTiles()
      ensures !Whole(g, t)
    {
      LowerTile(g, t);
    }
    SkipTiles(tables, g, plane, qp, forward, n, g.NumTiles(), OutTiles(tables, g, plane, qp, forward));
  }

  lemma LowerTile(g: Grid, t: nat)
    requires g.tileSize > 0 && g.height / g.tileSize * g.TilesX() <= t < g.NumTiles()
    ensures !Whole(g, t)
  {
    RowOf(g.TilesX(), g.TilesY(), t);
    if t / g.TilesX() < g.height / g.tileSize {
      MulMonotone(t / g.TilesX() + 1, g.height / g.tileSize, g.TilesX());
    }
    NotWhole(g, t);
  }

  /** The plane once the tiles before n are done. */
  ghost predicate DoneTo(tables: CosTables, g: Grid, plane: seq<i16>, qp: nat, forward: bool, now: seq<i16>, n: nat)
    requires IsBlockSize(g.tileSize) && |plane| == g.Area()
  {
    n <= g.NumTiles() && now == PaintTiles(plane, g, OutTiles(tables, g, plane, qp, forward), n)
  }

  /** One turn of the inner loop. */
  method TransformOne(ch: array<i16>, tables: CosTables, ghost plane: seq<i16>, g: Grid, qp: nat, forward: bool,
                      row: nat, col: nat, cosTable: seq<int>, ghost t: nat, ghost next: nat)
    requires IsBlockSize(g.tileSize) && ch.Length == g.Area() == |plane| && cosTable == CosTableFor(tables, g.tileSize)
    requires row < g.height / g.tileSize && col < g.width / g.tileSize && t == row * g.TilesX() + col
    requires DoneTo(tables, g, plane, qp, forward, ch[..], t) && next == t + 1
    modifies ch
    ensures DoneTo(tables, g, plane, qp, forward, ch[..], next)
  {
    WholeTile(g, row, col, t);
    NextBlock(tables, g, plane, qp, forward, row, col, t, ch[..]);
    var n := g.tileSize;
    OneBlock(ch, g, Box(col * n, row * n, n, n), g.width, n, qp, cosTable, forward);
  }

  lemma RowDone(tables: CosTables, g: Grid, plane: seq<i16>, qp: nat, forward: bool, now: seq<i16>, row: nat, n: nat,
                m: nat)
    requires IsBlockSize(g.tileSize) && |plane| == g.Area() && row < g.height / g.tileSize
    requires n == row * g.TilesX() + g.width / g.tileSize && m == (row + 1) * g.TilesX()
    requires DoneTo(tables, g, plane, qp, forward, now, n)
    ensures DoneTo(tables, g, plane, qp, forward, now, m)
  {
    CeilDiv(g.height, g.tileSize, row);
    MulMonotone(row + 1, g.height / g.tileSize, g.tileSize);
    NextRow(g.TilesX(), row);
    RowEnds(tables, g, plane, qp, forward, row, n, m);
  }

  /** One row of blocks. */
  method TransformRow(ch: array<i16>, tables: CosTables, ghost plane: seq<i16>, g: Grid, qp: nat, forward: bool,
                      row: nat, blocksX: nat, cosTable: seq<int>, ghost first: nat, ghost after: nat)
    requires IsBlockSize(g.tileSize) && ch.Length == g.Area() == |plane| && row < g.height / g.tileSize
    requires blocksX == g.width / g.tileSize && cosTable == CosTableFor(tables, g.tileSize)
    requires first == row * g.TilesX() && after == (row + 1) * g.TilesX()
    requires DoneTo(tables, g, plane, qp, forward, ch[..], first)
    modifies ch
    ensures DoneTo(tables, g, plane, qp, forward, ch[..], after)
  {
    ghost var t := first;
    for col := 0 to blocksX
      invariant t == first + col && DoneTo(tables, g, plane, qp, forward, ch[..], t)
    {
      ghost var next := t + 1;
      TransformOne(ch, tables, plane, g, qp, forward, row, col, cosTable, t, next);
      t := next;
    }
    RowDone(tables, g, plane, qp, forward, ch[..], row, t, after);
  }

  /** The loops over the blocks of one channel. */
  method TransformPlane(ch: array<i16>, tables: CosTables, g: Grid, qp: nat, forward: bool)
    requires IsBlockSize(g.tileSize) && ch.Length == g.Area()
    modifies ch
    ensures ch[..] == PlaneOut(tables, g, old(ch[..]), qp, forward)
  {
    ghost var plane := ch[..];
    var cosTable := CosTableFor(tables, g.tileSize);
    ghost var t: nat := 0;
    for row := 0 to g.height / g.tileSize
      invariant t == row * g.TilesX() && DoneTo(tables, g, plane, qp, forward, ch[..], t)
    {
      ghost var after := (row + 1) * g.TilesX();
      TransformRow(ch, tables, plane, g, qp, forward, row, g.width / g.tileSize, cosTable, t, after);
      t := after;
    }
    RowsEnd(tables, g, plane, qp, forward, t);
  }

  // ---- What blocks lose ----

  /** At this parameter every block of samples within 255 comes back within e. */
  ghost predicate BlocksLose(tables: CosTables, n: nat, qp: nat, e: int)
    requires IsBlockSize(n)
  {
    e >= 0 && forall b: seq<int> :: |b| == n * n && Within(b, 255) ==> BlockLoses(CosTableFor(tables, n), n, b, qp, e)
  }

  ghost predicate BlockLoses(t: seq<int>, n: nat, b: seq<int>, qp: nat, e: int)
    requires Dct.IsTable(t, n) && |b| == n * n
  {
    Dct.Near(Dct.Lossy(t, n, b, qp), b, e)
  }

  /** 4x4 blocks lose at most 16 * max(1, qp / 4) - 1. */
  lemma FourLose(tables: CosTables, qp: nat)
    requires qp <= 255
    ensures BlocksLose(tables, 4, qp, 16 * Max(1, qp / 4) - 1)
  {
    forall b: seq<int> | |b| == 4 * 4 && Within(b, 255)
      ensures BlockLoses(CosTableFor(tables, 4), 4, b, qp, 16 * Max(1, qp / 4) - 1)
    {
      DctLoss.LossyBlock(b, qp);
    }
  }

  lemma LoseMore(tables: CosTables, n: nat, qp: nat, e: int, f: int)
    requires IsBlockSize(n) && BlocksLose(tables, n, qp, e) && e <= f
    ensures BlocksLose(tables, n, qp, f)
  {
    forall b: seq<int> | |b| == n * n && Within(b, 255)
      ensures BlockLoses(CosTableFor(tables, n), n, b, qp, f)
    {
      assert BlockLoses(CosTableFor(tables, n), n, b, qp, e);
    }
  }

  /** Blocks of any size, when the table is nearly orthogonal. */
  lemma OthersLose(tables: CosTables, n: nat, t: seq<int>, c: nat, a: nat, d: nat, l: nat, m: nat, tall: nat,
                   qp: nat, e: nat, loss: nat)
    requires IsBlockSize(n) && t == CosTableFor(tables, n) && Orthogonal.NearlyOrthogonal(t, n, c, a, d)
    requires 255 * d + 2048 * a + 0x80_0000 < 0x100_0000 * (l + 1) && tall == c * 255
    requires tall * d + 2048 * a + 0x80_0000 < 0x100_0000 * (m + 1) && e == n * Max(1, qp / 4) - 1
    requires c * (tall + (m + c * e)) < 0x7FFF && c * tall < 0x7FFF && c * (c * tall + e) < 0x7FFF && tall < 0x7FFF
    requires loss == l + c * (m + c * e)
    ensures BlocksLose(tables, n, qp, loss)
  {
    forall b: seq<int> | |b| == n * n && Within(b, 255)
      ensures BlockLoses(t, n, b, qp, loss)
    {
      OneLoses(n, t, c, a, d, l, m, b, tall, qp, e, loss);
    }
  }

  lemma OneLoses(n: nat, t: seq<int>, c: nat, a: nat, d: nat, l: nat, m: nat, b: seq<int>, tall: nat, qp: nat,
                 e: nat, loss: nat)
    requires Orthogonal.NearlyOrthogonal(t, n, c, a, d) && Dct.IsTable(b, n) && Within(b, 255)
    requires 255 * d + 2048 * a + 0x80_0000 < 0x100_0000 * (l + 1) && tall == c * 255
    requires tall * d + 2048 * a + 0x80_0000 < 0x100_0000 * (m + 1) && e == n * Max(1, qp / 4) - 1
    requires c * (tall + (m + c * e)) < 0x7FFF && c * tall < 0x7FFF && c * (c * tall + e) < 0x7FFF && tall < 0x7FFF
    requires loss == l + c * (m + c * e)
    ensures BlockLoses(t, n, b, qp, loss)
  {
    DctLoss.LossyComesBack(t, n, c, a, d, l, m, b, 255, tall, qp, e);
  }

  lemma OutOfTile(tables: CosTables, g: Grid, plane: seq<i16>, qp: nat, forward: bool, t: nat)
    requires IsBlockSize(g.tileSize) && |plane| == g.Area() && t < g.NumTiles()
    ensures Inside(TileBox(g, t), g)
    ensures Cut(PlaneOut(tables, g, plane, qp, forward), g, TileBox(g, t))
         == OutAt(tables, g, plane, qp, forward, t)
  {
    TilePainted(plane, g, OutTiles(tables, g, plane, qp, forward), g.NumTiles(), t);
  }

  lemma TileSmall(plane: seq<i16>, g: Grid, b: Box, bound: int)
    requires |plane| == g.Area() && Inside(b, g) && Within(plane, bound)
    ensures Within(Cut(plane, g, b), bound)
  {
    forall i | 0 <= i < b.w * b.h
      ensures -bound <= Cut(plane, g, b)[i] <= bound
    {
      AtInFrame(g, b, i);
    }
  }

  /** One block there and back. */
  lemma LossyTileNear(tables: CosTables, g: Grid, plane: seq<i16>, mid: seq<i16>, qp: nat, t: nat, e: int)
    requires IsBlockSize(g.tileSize) && |plane| == g.Area() && t < g.NumTiles() && Within(plane, 255)
    requires BlocksLose(tables, g.tileSize, qp, e) && mid == PlaneOut(tables, g, plane, qp, true)
    ensures Inside(TileBox(g, t), g)
    ensures Dct.Near(OutAt(tables, g, mid, qp, false, t), Cut(plane, g, TileBox(g, t)), e)
  {
    TileBoxInside(g, t);
    OutOfTile(tables, g, plane, qp, true, t);
    TileSmall(plane, g, TileBox(g, t), 255);
    if Whole(g, t) {
      assert BlockLoses(CosTableFor(tables, g.tileSize), g.tileSize, Cut(plane, g, TileBox(g, t)), qp, e);
    }
  }

  /** Main result for planes cut into blocks of one size: every sample comes back within what a block
      of that size loses. */
  lemma LossyPlaneNear(tables: CosTables, g: Grid, plane: seq<i16>, qp: nat, mid: seq<i16>, out: seq<i16>, e: int)
    requires IsBlockSize(g.tileSize) && |plane| == g.Area() && Within(plane, 255)
    requires BlocksLose(tables, g.tileSize, qp, e)
    requires mid == PlaneOut(tables, g, plane, qp, true) && out == PlaneOut(tables, g, mid, qp, false)
    ensures Dct.Near(out, plane, e)
  {
    forall i | 0 <= i < g.Area()
      ensures SampleNear(out, plane, i, e)
    {
      LossySampleOf(tables, g, plane, qp, mid, out, i, e);
    }
    NearAll(out, plane, e);
  }

  lemma LossySampleOf(tables: CosTables, g: Grid, plane: seq<i16>, qp: nat, mid: seq<i16>, out: seq<i16>, i: nat,
                      e: int)
    requires IsBlockSize(g.tileSize) && |plane| == g.Area() && Within(plane, 255)
    requires BlocksLose(tables, g.tileSize, qp, e)
    requires mid == PlaneOut(tables, g, plane, qp, true) && out == PlaneOut(tables, g, mid, qp, false)
    requires i < g.Area()
    ensures SampleNear(out, plane, i, e)
  {
    var x, y := PlaceOf(g, i);
    LossySample(tables, g, plane, qp, mid, out, i, x, y, e);
  }

  lemma PlaceOf(g: Grid, i: nat) returns (x: nat, y: nat)
    requires i < g.Area()
    ensures x < g.width && y < g.height && i == y * g.width + x
  {
    RowOf(g.width, g.height, i);
    x, y := i % g.width, i / g.width;
  }

  lemma NearAll(a: seq<int>, b: seq<int>, e: int)
    requires |a| == |b| && forall i :: 0 <= i < |a| ==> SampleNear(a, b, i, e)
    ensures Dct.Near(a, b, e)
  {
    forall i | 0 <= i < |a|
      ensures -e <= a[i] - b[i] <= e
    {
      assert SampleNear(a, b, i, e);
    }
  }

  ghost predicate SampleNear(a: seq<int>, b: seq<int>, i: nat, e: int)
  {
    i < |a| && i < |b| && -e <= a[i] - b[i] <= e
  }

  lemma LossySample(tables: CosTables, g: Grid, plane: seq<i16>, qp: nat, mid: seq<i16>, out: seq<i16>, i: nat,
                      x: nat, y: nat, e: int)
    requires IsBlockSize(g.tileSize) && |plane| == g.Area() && Within(plane, 255)
    requires BlocksLose(tables, g.tileSize, qp, e)
    requires x < g.width && y < g.height && i == y * g.width + x
    requires mid == PlaneOut(tables, g, plane, qp, true)
    requires out == PlaneOut(tables, g, mid, qp, false)
    ensures SampleNear(out, plane, i, e)
  {
    var t := OwnerOf(g, x, y);
    LossyTileNear(tables, g, plane, mid, qp, t, e);
    OutOfTile(tables, g, mid, qp, false, t);
    SampleOfTile(g, out, plane, t, i, x, y, e);
  }

  lemma SampleOfTile(g: Grid, a: seq<i16>, b: seq<i16>, t: nat, i: nat, x: nat, y: nat, e: int)
    requires g.tileSize > 0 && |a| == |b| == g.Area() && t < g.NumTiles() && x < g.width && y < g.height
    requires i == y * g.width + x && Covers(TileBox(g, t), x, y) && Inside(TileBox(g, t), g)
    requires Dct.Near(Cut(a, g, TileBox(g, t)), Cut(b, g, TileBox(g, t)), e)
    ensures SampleNear(a, b, i, e)
  {
    PixelOfTile(g, a, t, x, y);
    PixelOfTile(g, b, t, x, y);
  }
}
