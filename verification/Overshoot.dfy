/** What the comment "Clamp to [0, 255] for Y" of src/codec/omni/tile_decoder.cpp:353 announces and
    the loop below it does not do: a plane that leaves its range. */
module Overshoot {
  import opened Words
  import opened Arithmetic
  import opened Frames
  import opened Color
  import opened Dct
  import opened Blocks
  import opened Tiles

  // ---- One block ----

  lemma RowOfBlock(b: seq<int>, r: nat, c: nat)
    requires |b| == 16 && r < 4 && c < 4
    ensures (4 * r + c) / 4 == r && (4 * r + c) % 4 == c
    ensures Row(b, 4, r)[c] == b[4 * r + c] && Column(b, 4, c)[r] == b[4 * r + c]
  {
  }

  /** Every row of the row pass is the transform of that row; likewise for the other passes. */
  lemma PassLines(b: seq<int>, k: nat)
    requires |b| == 16 && k < 4
    ensures Row(ForwardRows(TABLE4, 4, b), 4, k) == Dct1(TABLE4, 4, Row(b, 4, k))
    ensures Column(ForwardColumns(TABLE4, 4, b), 4, k) == Dct1(TABLE4, 4, Column(b, 4, k))
    ensures Column(InverseColumns(TABLE4, 4, b), 4, k) == Idct1(TABLE4, 4, Column(b, 4, k))
    ensures Row(InverseRows(TABLE4, 4, b), 4, k) == Idct1(TABLE4, 4, Row(b, 4, k))
  {
    RowLine(b, k);
    ColumnLine(b, k);
  }

  lemma RowLine(b: seq<int>, k: nat)
    requires |b| == 16 && k < 4
    ensures Row(ForwardRows(TABLE4, 4, b), 4, k) == Dct1(TABLE4, 4, Row(b, 4, k))
    ensures Row(InverseRows(TABLE4, 4, b), 4, k) == Idct1(TABLE4, 4, Row(b, 4, k))
  {
    forall c | 0 <= c < 4
      ensures Row(ForwardRows(TABLE4, 4, b), 4, k)[c] == Dct1(TABLE4, 4, Row(b, 4, k))[c]
      ensures Row(InverseRows(TABLE4, 4, b), 4, k)[c] == Idct1(TABLE4, 4, Row(b, 4, k))[c]
    {
      RowOfBlock(ForwardRows(TABLE4, 4, b), k, c);
      RowOfBlock(InverseRows(TABLE4, 4, b), k, c);
    }
  }

  lemma ColumnLine(b: seq<int>, k: nat)
    requires |b| == 16 && k < 4
    ensures Column(ForwardColumns(TABLE4, 4, b), 4, k) == Dct1(TABLE4, 4, Column(b, 4, k))
    ensures Column(InverseColumns(TABLE4, 4, b), 4, k) == Idct1(TABLE4, 4, Column(b, 4, k))
  {
    forall r | 0 <= r < 4
      ensures Column(ForwardColumns(TABLE4, 4, b), 4, k)[r] == Dct1(TABLE4, 4, Column(b, 4, k))[r]
      ensures Column(InverseColumns(TABLE4, 4, b), 4, k)[r] == Idct1(TABLE4, 4, Column(b, 4, k))[r]
    {
      RowOfBlock(ForwardColumns(TABLE4, 4, b), r, k);
      RowOfBlock(InverseColumns(TABLE4, 4, b), r, k);
    }
  }

  /** One white sample in the corner of a black block. */
  const CORNER: seq<int> := [255, 0, 0, 0, 0, 0, 0, 0, 0, 0, 0, 0, 0, 0, 0, 0]

  /** Its coefficients. */
  const CORNER_SPECTRUM: seq<int> := [
    64, 84, 64, 35,
    84, 109, 84, 45,
    64, 84, 64, 35,
    35, 45, 35, 19]

  lemma RowIs(b: seq<int>, k: nat)
    requires |b| == 16 && k < 4
    ensures Row(b, 4, k) == [b[4 * k], b[4 * k + 1], b[4 * k + 2], b[4 * k + 3]]
    ensures Column(b, 4, k) == [b[k], b[4 + k], b[8 + k], b[12 + k]]
  {
    forall c | 0 <= c < 4
      ensures Row(b, 4, k)[c] == b[4 * k + c] && Column(b, 4, k)[c] == b[4 * c + k]
    {
      RowOfBlock(b, k, c);
      RowOfBlock(b, c, k);
    }
  }

  lemma ImpulseDot(a: int, c: seq<int>)
    requires |c| == 4
    ensures Dot([a, 0, 0, 0], c, 4) == a * c[0]
  {
    Dot4([a, 0, 0, 0], c);
  }

  /** The transform of a line whose first sample alone is not zero. */
  lemma ImpulseLine(a: int, y: seq<int>)
    requires y == Dct1(TABLE4, 4, [a, 0, 0, 0])
    ensures y == [Scaled(a * 2048), Scaled(a * 2676), Scaled(a * 2048), Scaled(a * 1108)]
  {
    Table4();
    ImpulseDot(a, [2048, 2048, 2048, 2048]);
    ImpulseDot(a, [2676, 1108, -1108, -2676]);
    ImpulseDot(a, [2048, -2048, -2048, 2048]);
    ImpulseDot(a, [1108, -2676, 2676, -1108]);
  }

  lemma CornerRow(t: seq<int>)
    requires t == ForwardRows(TABLE4, 4, CORNER)
    ensures Row(t, 4, 0) == [128, 167, 128, 69]
  {
    PassLines(CORNER, 0);
    RowIs(CORNER, 0);
    WhiteLine(Row(t, 4, 0));
  }

  lemma WhiteLine(y: seq<int>)
    requires y == Dct1(TABLE4, 4, [255, 0, 0, 0])
    ensures y == [128, 167, 128, 69]
  {
    ImpulseLine(255, y);
    assert Scaled(255 * 2048) == 128 && Scaled(255 * 2676) == 167 && Scaled(255 * 1108) == 69;
  }

  lemma BlackRow(t: seq<int>, k: nat)
    requires 1 <= k < 4 && t == ForwardRows(TABLE4, 4, CORNER)
    ensures Row(t, 4, k) == [0, 0, 0, 0]
  {
    PassLines(CORNER, k);
    RowIs(CORNER, k);
    ImpulseLine(0, Row(t, 4, k));
  }

  lemma CornerColumn(t: seq<int>, u: seq<int>, k: nat)
    requires k < 4 && t == ForwardRows(TABLE4, 4, CORNER) && u == ForwardColumns(TABLE4, 4, t)
    ensures Column(u, 4, k) == Column(CORNER_SPECTRUM, 4, k)
  {
    ImpulseColumn(t, k);
    SpectrumColumn(k, t[k]);
    PassLines(t, k);
    ImpulseLine(t[k], Column(u, 4, k));
  }

  lemma ImpulseColumn(t: seq<int>, k: nat)
    requires k < 4 && t == ForwardRows(TABLE4, 4, CORNER)
    ensures Column(t, 4, k) == [t[k], 0, 0, 0] && t[k] == [128, 167, 128, 69][k]
  {
    CornerRow(t);
    RowOfBlock(t, 0, k);
    forall r | 1 <= r < 4
      ensures Column(t, 4, k)[r] == 0
    {
      BlackRow(t, r);
      RowOfBlock(t, r, k);
    }
  }

  lemma SpectrumColumn(k: nat, a: int)
    requires k < 4 && a == [128, 167, 128, 69][k]
    ensures Column(CORNER_SPECTRUM, 4, k) == [Scaled(a * 2048), Scaled(a * 2676), Scaled(a * 2048), Scaled(a * 1108)]
  {
    var c := Column(CORNER_SPECTRUM, 4, k);
    RowIs(CORNER_SPECTRUM, k);
    if k == 0 {
      assert c == [64, 84, 64, 35];
    } else if k == 1 {
      assert c == [84, 109, 84, 45];
    } else if k == 2 {
      assert c == [64, 84, 64, 35];
    } else {
      assert c == [35, 45, 35, 19];
    }
  }

  lemma CornerForward()
    ensures Dct.Forward(TABLE4, 4, CORNER) == CORNER_SPECTRUM
  {
    var t := ForwardRows(TABLE4, 4, CORNER);
    var u := ForwardColumns(TABLE4, 4, t);
    forall j | 0 <= j < 16
      ensures u[j] == CORNER_SPECTRUM[j]
    {
      CornerColumn(t, u, j % 4);
      RowOfBlock(u, j / 4, j % 4);
      RowOfBlock(CORNER_SPECTRUM, j / 4, j % 4);
    }
  }

  /** The first sample of a column, and the third of a row, on the way back. */
  lemma InverseExact(y: seq<int>, x: seq<int>)
    requires |y| == 4 && x == Idct1(TABLE4, 4, y)
    ensures x[0] == Scaled(y[0] * 2048 + y[1] * 2676 + y[2] * 2048 + y[3] * 1108)
    ensures x[2] == Scaled(y[0] * 2048 + y[1] * -1108 + y[2] * -2048 + y[3] * 2676)
  {
    Table4();
    Dot4(y, [2048, 2676, 2048, 1108]);
    Dot4(y, [2048, -1108, -2048, 2676]);
  }

  function Top(u: seq<int>, k: nat): int
    requires |u| == 16 && k < 4
  {
    Scaled(u[k] * 2048 + u[4 + k] * 2676 + u[8 + k] * 2048 + u[12 + k] * 1108)
  }

  lemma TopIs(u: seq<int>, v: seq<int>, k: nat)
    requires |u| == 16 && k < 4 && v == InverseColumns(TABLE4, 4, u)
    ensures v[k] == Top(u, k)
  {
    PassLines(u, k);
    RowIs(u, k);
    RowIs(v, k);
    InverseExact(Column(u, 4, k), Column(v, 4, k));
  }

  lemma ThirdSample(u: seq<int>)
    requires |u| == 16
    ensures Dct.Inverse(TABLE4, 4, u)[2]
         == Scaled(Top(u, 0) * 2048 + Top(u, 1) * -1108 + Top(u, 2) * -2048 + Top(u, 3) * 2676)
  {
    var v := InverseColumns(TABLE4, 4, u);
    var z := InverseRows(TABLE4, 4, v);
    TopIs(u, v, 0);
    TopIs(u, v, 1);
    TopIs(u, v, 2);
    TopIs(u, v, 3);
    PassLines(v, 0);
    RowIs(v, 0);
    RowIs(z, 0);
    InverseExact(Row(v, 4, 0), Row(z, 4, 0));
  }

  function Kept(v: nat, s: nat): nat
    requires s > 0
  {
    v / s * s
  }

  /** The spectrum quantised with a base step and back. */
  function CornerBack(step: nat): (u: seq<int>)
    requires step > 0
    ensures |u| == 16
  {
    seq(16, j requires 0 <= j < 16 =>
      MulMonotone(1, 1 + (j % 4 + j / 4) / 2, step); Kept(CORNER_SPECTRUM[j], step * (1 + (j % 4 + j / 4) / 2)))
  }

  lemma QuantisedBack(v: nat, s: nat)
    requires v <= 109 && s >= 1
    ensures ToI16(ToI16(TruncDiv(v, s)) * s) == Kept(v, s)
  {
    TruncBack(v, s);
    Kept16(v, TruncDiv(v, s));
    Kept16(v, TruncDiv(v, s) * s);
  }

  lemma CornerQuantised(qp: nat)
    requires qp <= 255
    ensures Dequantised(Quantised(CORNER_SPECTRUM, 4, qp), 4, qp) == CornerBack(Max(1, qp / 4))
  {
    forall j | 0 <= j < 16
      ensures ToI16(ToI16(TruncDiv(CORNER_SPECTRUM[j], StepAt(qp, j % 4, j / 4))) * StepAt(qp, j % 4, j / 4))
           == Kept(CORNER_SPECTRUM[j], StepAt(qp, j % 4, j / 4))
    {
      assert 0 <= CORNER_SPECTRUM[j] <= 109;
      QuantisedBack(CORNER_SPECTRUM[j], StepAt(qp, j % 4, j / 4));
    }
  }

  lemma CornerAt3()
    ensures Dct.Inverse(TABLE4, 4, CornerBack(3))[2] == -5
  {
    var u := [63, 84, 60, 30, 84, 108, 84, 45, 60, 84, 63, 27, 30, 45, 27, 12];
    assert CornerBack(3) == u;
    ThirdSample(u);
    assert Top(u, 0) == 124 && Top(u, 1) == 167 && Top(u, 2) == 124 && Top(u, 3) == 61;
  }

  lemma CornerAt4()
    ensures Dct.Inverse(TABLE4, 4, CornerBack(4))[2] == -3
  {
    var u := [64, 84, 64, 32, 84, 104, 80, 36, 64, 80, 60, 24, 32, 36, 24, 16];
    assert CornerBack(4) == u;
    ThirdSample(u);
    assert Top(u, 0) == 128 && Top(u, 1) == 160 && Top(u, 2) == 121 && Top(u, 3) == 56;
  }

  lemma CornerAt5()
    ensures Dct.Inverse(TABLE4, 4, CornerBack(5))[2] == -4
  {
    var u := [60, 80, 60, 30, 80, 100, 80, 45, 60, 80, 60, 30, 30, 45, 30, 0];
    assert CornerBack(5) == u;
    ThirdSample(u);
    assert Top(u, 0) == 120 && Top(u, 1) == 158 && Top(u, 2) == 120 && Top(u, 3) == 59;
  }

  lemma CornerAt6()
    ensures Dct.Inverse(TABLE4, 4, CornerBack(6))[2] == -13
  {
    var u := [60, 84, 60, 24, 84, 108, 84, 36, 60, 84, 54, 18, 24, 36, 18, 0];
    assert CornerBack(6) == u;
    ThirdSample(u);
    assert Top(u, 0) == 121 && Top(u, 1) == 164 && Top(u, 2) == 117 && Top(u, 3) == 45;
  }

  lemma CornerAt7()
    ensures Dct.Inverse(TABLE4, 4, CornerBack(7))[2] == -8
  {
    var u := [63, 84, 56, 28, 84, 98, 84, 42, 56, 84, 63, 21, 28, 42, 21, 0];
    assert CornerBack(7) == u;
    ThirdSample(u);
    assert Top(u, 0) == 122 && Top(u, 1) == 159 && Top(u, 2) == 120 && Top(u, 3) == 52;
  }

  lemma CornerAt8()
    ensures Dct.Inverse(TABLE4, 4, CornerBack(8))[2] == -7
  {
    var u := [64, 80, 64, 32, 80, 96, 80, 24, 64, 80, 48, 24, 32, 24, 24, 0];
    assert CornerBack(8) == u;
    ThirdSample(u);
    assert Top(u, 0) == 125 && Top(u, 1) == 149 && Top(u, 2) == 115 && Top(u, 3) == 44;
  }

  lemma CornerAt9()
    ensures Dct.Inverse(TABLE4, 4, CornerBack(9))[2] == -12
  {
    var u := [63, 81, 54, 18, 81, 108, 72, 27, 54, 72, 54, 27, 18, 27, 27, 0];
    assert CornerBack(9) == u;
    ThirdSample(u);
    assert Top(u, 0) == 116 && Top(u, 1) == 154 && Top(u, 2) == 108 && Top(u, 3) == 40;
  }

  lemma CornerAt10()
    ensures Dct.Inverse(TABLE4, 4, CornerBack(10))[2] == -13
  {
    var u := [60, 80, 60, 20, 80, 100, 80, 30, 60, 80, 60, 30, 20, 30, 30, 0];
    assert CornerBack(10) == u;
    ThirdSample(u);
    assert Top(u, 0) == 118 && Top(u, 1) == 153 && Top(u, 2) == 120 && Top(u, 3) == 45;
  }

  /** At every parameter the encoder sends, another sample of that block comes back negative. */
  lemma CornerComesBackNegative(qp: nat)
    requires 15 <= qp <= 41
    ensures Lossy(TABLE4, 4, CORNER, qp)[2] < 0
  {
    CornerForward();
    CornerQuantised(qp);
    CornerAt3();
    CornerAt4();
    CornerAt5();
    CornerAt6();
    CornerAt7();
    CornerAt8();
    CornerAt9();
    CornerAt10();
    assert qp / 4 in {3, 4, 5, 6, 7, 8, 9, 10};
  }

  // ---- One tile ----

  lemma CutWhole(plane: seq<i16>, g: Grid, b: Box)
    requires g == Grid(4, 4, 4) && |plane| == 16 && b == Box(0, 0, 4, 4)
    ensures Inside(b, g) && Cut(plane, g, b) == plane
  {
    forall i | 0 <= i < 16
      ensures Cut(plane, g, b)[i] == plane[i]
    {
      AtInFrame(g, b, i);
    }
  }

  /** A 4x4 plane is one block. */
  lemma OneBlock(tables: CosTables, plane: seq<i16>, qp: nat, forward: bool)
    requires |plane| == 16
    ensures PlaneOut(tables, Grid(4, 4, 4), plane, qp, forward) == BlockOut(TABLE4, 4, plane, qp, forward)
  {
    var g := Grid(4, 4, 4);
    assert g.NumTiles() == 1 && TileBox(g, 0) == Box(0, 0, 4, 4);
    OutOfTile(tables, g, plane, qp, forward, 0);
    CutWhole(plane, g, TileBox(g, 0));
    CutWhole(PlaneOut(tables, g, plane, qp, forward), g, TileBox(g, 0));
  }

  lemma OneBlockLossy(tables: CosTables, side: nat, plane: seq<i16>, qp: nat)
    requires side == 4 && |plane| == side * side
    ensures LossyPlane(tables, side, side, plane, qp) == Lossy(TABLE4, 4, plane, qp)
  {
    LossyPlaneIs(tables, side, plane, qp, 4);
    OneBlock(tables, plane, qp, true);
    OneBlock(tables, BlockOut(TABLE4, 4, plane, qp, true), qp, false);
  }

  lemma LossyPlaneIs(tables: CosTables, side: nat, plane: seq<i16>, qp: nat, n: nat)
    requires |plane| == side * side && n == BlockSize(side, side)
    ensures LossyPlane(tables, side, side, plane, qp)
         == PlaneOut(tables, Grid(side, side, n), PlaneOut(tables, Grid(side, side, n), plane, qp, true), qp, false)
  {
  }

  /** The range the comment announces for Y. */
  ghost predicate ByteRange(plane: seq<int>) { forall i :: 0 <= i < |plane| ==> 0 <= plane[i] <= 255 }

  /** At this parameter the Y plane of every lossy tile cut into 4x4 blocks comes back in range. */
  ghost predicate KeepsRange(tables: CosTables, qp: nat)
  {
    forall w: nat, h: nat, tile: seq<Pixel> | |tile| == w * h && BlockSize(w, h) == 4 ::
      ByteRange(LossyPlane(tables, w, h, Plane(tile, Y), qp))
  }

  function WhiteCorner(): (tile: seq<Pixel>)
    ensures |tile| == 4 * 4
  {
    [Pixel(255, 255, 255, 255)] + seq(15, _ => Pixel(0, 0, 0, 255))
  }

  lemma WhiteCornerPlane()
    ensures Plane(WhiteCorner(), Y) == CORNER
  {
  }

  lemma WhiteCornerNegative(tables: CosTables, side: nat, tile: seq<Pixel>, qp: nat)
    requires 15 <= qp <= 41 && side == 4 && tile == WhiteCorner()
    ensures |tile| == side * side && LossyPlane(tables, side, side, Plane(tile, Y), qp)[2] < 0
  {
    WhiteCornerPlane();
    OneBlockLossy(tables, side, CORNER, qp);
    CornerComesBackNegative(qp);
  }

  lemma OneNegativeIsEnough(tables: CosTables, qp: nat, w: nat, h: nat, tile: seq<Pixel>, i: nat)
    requires |tile| == w * h && BlockSize(w, h) == 4 && i < w * h
    requires LossyPlane(tables, w, h, Plane(tile, Y), qp)[i] < 0
    ensures !KeepsRange(tables, qp)
  {
    assert !ByteRange(LossyPlane(tables, w, h, Plane(tile, Y), qp));
  }

  lemma SomeTileLeaves(tables: CosTables, qp: nat) returns (side: nat, tile: seq<Pixel>)
    requires 15 <= qp <= 41
    ensures |tile| == side * side && BlockSize(side, side) == 4 && 2 < side * side
    ensures LossyPlane(tables, side, side, Plane(tile, Y), qp)[2] < 0
  {
    side, tile := 4, WhiteCorner();
    WhiteCornerNegative(tables, side, tile, qp);
  }

  /** No parameter the encoder sends keeps the announced range: one white pixel on black leaves it. */
  lemma NoParameterKeepsRange(tables: CosTables, qp: nat)
    requires 15 <= qp <= 41
    ensures !KeepsRange(tables, qp)
  {
    var side, tile := SomeTileLeaves(tables, qp);
    OneNegativeIsEnough(tables, qp, side, side, tile, 2);
  }
}
