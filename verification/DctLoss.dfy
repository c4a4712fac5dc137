/** What the 4x4 table loses: an instance of the bounds for nearly orthogonal tables. */
module DctLoss {
  import opened Words
  import opened Arithmetic
  import opened Dct
  import opened Orthogonal

  /** The 4x4 table is such a table. */
  lemma FourIsNearlyOrthogonal()
    ensures NearlyOrthogonal(TABLE4, 4, 2, 7880, 128)
  {
    Table4();
    forall i | 0 <= i < 4
      ensures LinesFit(TABLE4, 4, 2, 7880, i)
    {
      WeightFour(Row(TABLE4, 4, i));
      WeightFour(Column(TABLE4, 4, i));
    }
    forall i, j | 0 <= i < 4 && 0 <= j < 4
      ensures ColumnsFit(TABLE4, 4, 32, i, j)
    {
      FourColumns(i, j);
    }
    EntryByEntry(TABLE4, 4, 2, 7880, 32);
  }

  lemma WeightFour(c: seq<int>)
    requires |c| == 4
    ensures Weight(c, 4) == Abs(c[0]) + Abs(c[1]) + Abs(c[2]) + Abs(c[3])
  {
    assert Weight(c, 1) == Abs(c[0]);
    assert Weight(c, 2) == Abs(c[0]) + Abs(c[1]);
    assert Weight(c, 3) == Abs(c[0]) + Abs(c[1]) + Abs(c[2]);
  }

  lemma FourColumns(i: nat, j: nat)
    requires i < 4 && j < 4
    ensures ColumnsFit(TABLE4, 4, 32, i, j)
  {
    Table4();
    Dot4(Column(TABLE4, 4, j), Column(TABLE4, 4, i));
  }

  // ---- Lines and blocks ----

  /** Coefficients off by at most e give a line off by at most 1 + 2e, as long as the clamp is out of
      reach. */
  lemma LineRoundTrip(x: seq<int>, y: seq<int>, z: seq<int>, bound: nat, e: nat)
    requires |x| == 4 && Within(x, bound) && 2 * bound + e <= 0x3FFF
    requires Near(y, Dct1(TABLE4, 4, x), e) && z == Idct1(TABLE4, 4, y)
    ensures Near(z, x, 1 + 2 * e)
  {
    FourIsNearlyOrthogonal();
    LineComesBack(TABLE4, 4, 2, 7880, 128, 1, x, y, z, bound, e);
  }

  /** Columns whose coefficients are off by at most e come back within 1 + 2e. */
  lemma ColumnPasses(t: seq<int>, u: seq<int>, e: nat)
    requires |t| == 16 && Within(t, 511) && e <= 0x3000 && Near(u, ForwardColumns(TABLE4, 4, t), e)
    ensures Near(InverseColumns(TABLE4, 4, u), t, 1 + 2 * e)
  {
    FourIsNearlyOrthogonal();
    ColumnsComeBack(TABLE4, 4, 2, 7880, 128, 1, t, u, 511, e);
  }

  /** Main result: a 4x4 block of samples between -255 and 255, sent with coefficients that are
      off by at most e, comes back with every sample off by at most 3 + 4e. */
  lemma BlockRoundTrip(b: seq<int>, u: seq<int>, e: nat)
    requires |b| == 16 && Within(b, 255) && e <= 0x1000 && Near(u, Forward(TABLE4, 4, b), e)
    ensures Near(Inverse(TABLE4, 4, u), b, 3 + 4 * e)
  {
    FourIsNearlyOrthogonal();
    BlockComesBack(TABLE4, 4, 2, 7880, 128, 1, 1, b, u, 255, 510, e);
  }

  /** With the coefficients untouched, every sample is within 3. */
  lemma ExactBlockRoundTrip(b: seq<int>)
    requires |b| == 16 && Within(b, 255)
    ensures Near(Inverse(TABLE4, 4, Forward(TABLE4, 4, b)), b, 3)
  {
    BlockRoundTrip(b, Forward(TABLE4, 4, b), 0);
  }

  // ---- No clamp ----

  ghost predicate Unclamped(sum: int) { -0x8000 <= (sum + 2048) / 4096 <= 0x7FFF }

  lemma SumUnclamped(x: seq<int>, c: seq<int>, bound: nat)
    requires |x| == |c| == 4 && Within(x, bound) && 2 * bound < 0x7FFF && Weight(c, 4) <= 8192
    ensures Unclamped(Dot(x, c, 4))
  {
    DotBound(x, c, 4, bound);
    SumLimit(Dot(x, c, 4), Weight(c, 4), 2, bound, 2 * bound);
  }

  lemma BlocksSmall(b: seq<int>, t: seq<int>, u: seq<int>, v: seq<int>)
    requires |b| == 16 && Within(b, 255) && t == ForwardRows(TABLE4, 4, b)
    requires u == ForwardColumns(TABLE4, 4, t) && v == InverseColumns(TABLE4, 4, u)
    ensures Within(t, 510) && Within(u, 1020) && Within(v, 511)
  {
    FourIsNearlyOrthogonal();
    RowsSmall(TABLE4, 4, 2, 7880, 128, b, 255, 510);
    ColumnsSmall(TABLE4, 4, 2, 7880, 128, t, 510, 1020);
    ColumnPasses(t, u, 0);
  }

  /** None of the 64 sums of the four passes is cut by the 16-bit clamp. */
  lemma NoClampFires(b: seq<int>, t: seq<int>, u: seq<int>, v: seq<int>, k: nat, i: nat)
    requires |b| == 16 && Within(b, 255) && t == ForwardRows(TABLE4, 4, b) && k < 4 && i < 4
    requires u == ForwardColumns(TABLE4, 4, t) && v == InverseColumns(TABLE4, 4, u)
    ensures Unclamped(Dot(Row(b, 4, k), Row(TABLE4, 4, i), 4)) && Unclamped(Dot(Column(t, 4, k), Row(TABLE4, 4, i), 4))
    ensures Unclamped(Dot(Column(u, 4, k), Column(TABLE4, 4, i), 4))
    ensures Unclamped(Dot(Row(v, 4, k), Column(TABLE4, 4, i), 4))
  {
    BlocksSmall(b, t, u, v);
    FourIsNearlyOrthogonal();
    assert LinesFit(TABLE4, 4, 2, 7880, i);
    LinesOf(b, 4, k, 255);
    LinesOf(t, 4, k, 510);
    LinesOf(u, 4, k, 1020);
    LinesOf(v, 4, k, 511);
    SumUnclamped(Row(b, 4, k), Row(TABLE4, 4, i), 255);
    SumUnclamped(Column(t, 4, k), Row(TABLE4, 4, i), 510);
    SumUnclamped(Column(u, 4, k), Column(TABLE4, 4, i), 1020);
    SumUnclamped(Row(v, 4, k), Column(TABLE4, 4, i), 511);
  }

  // ---- With quantisation ----

  /** Every step of an n x n block is at most n times the base step. */
  lemma StepBound(n: nat, qp: nat, x: nat, y: nat, s: nat)
    requires x < n && y < n && s == StepAt(qp, x, y)
    ensures s <= n * Max(1, qp / 4)
  {
    MulMonotone(1 + (x + y) / 2, n, Max(1, qp / 4));
  }

  lemma QuantisedNear(y: seq<int>, u: seq<int>, n: nat, qp: nat, e: int)
    requires IsTable(y, n) && (forall j :: 0 <= j < |y| ==> -0x8000 <= y[j] < 0x8000) && e == n * Max(1, qp / 4) - 1
    requires u == Dequantised(Quantised(y, n, qp), n, qp)
    ensures Near(u, y, e)
  {
    forall j | 0 <= j < |y|
      ensures -e <= u[j] - y[j] <= e
    {
      OneNear(y, n, qp, j, e);
    }
  }

  lemma OneNear(y: seq<int>, n: nat, qp: nat, j: nat, e: int)
    requires IsTable(y, n) && j < |y| && -0x8000 <= y[j] < 0x8000 && e == n * Max(1, qp / 4) - 1
    ensures Close(Dequantised(Quantised(y, n, qp), n, qp)[j], y[j], e)
  {
    RowOf(n, n, j);
    LossWithin(y, n, qp, j, j % n, j / n, StepAt(qp, j % n, j / n), e);
  }

  lemma LossWithin(b: seq<int>, n: nat, qp: nat, j: nat, x: nat, y: nat, s: nat, e: int)
    requires n > 0 && j < |b| && -0x8000 <= b[j] < 0x8000 && x == j % n && y == j / n && x < n && y < n
    requires s == StepAt(qp, x, y) && e == n * Max(1, qp / 4) - 1
    ensures Close(Dequantised(Quantised(b, n, qp), n, qp)[j], b[j], e)
  {
    BackAt(b, n, qp, j, s);
    LossOf(b[j], s);
    StepBound(n, qp, x, y, s);
  }

  /** A lossy block of any size, for any table that is nearly orthogonal. */
  lemma LossyComesBack(t: seq<int>, n: nat, c: nat, a: nat, d: nat, l: nat, m: nat, b: seq<int>, bound: nat,
                       tall: nat, qp: nat, e: nat)
    requires NearlyOrthogonal(t, n, c, a, d) && IsTable(b, n) && Within(b, bound) && tall == c * bound
    requires bound * d + 2048 * a + 0x80_0000 < 0x100_0000 * (l + 1)
    requires tall * d + 2048 * a + 0x80_0000 < 0x100_0000 * (m + 1)
    requires c * (tall + (m + c * e)) < 0x7FFF && c * tall < 0x7FFF && c * (c * tall + e) < 0x7FFF && tall < 0x7FFF
    requires e == n * Max(1, qp / 4) - 1
    ensures Near(Lossy(t, n, b, qp), b, l + c * (m + c * e))
  {
    var y := Forward(t, n, b);
    var u := Dequantised(Quantised(y, n, qp), n, qp);
    QuantisedNear(y, u, n, qp, e);
    BlockComesBack(t, n, c, a, d, l, m, b, u, bound, tall, e);
  }

  /** Main result for lossy 4x4 blocks: every sample is off by at most 16 * max(1, qp / 4) - 1. */
  lemma LossyBlock(b: seq<int>, qp: nat)
    requires |b| == 16 && Within(b, 255) && qp <= 255
    ensures Near(Lossy(TABLE4, 4, b, qp), b, 16 * Max(1, qp / 4) - 1)
  {
    FourIsNearlyOrthogonal();
    LossyComesBack(TABLE4, 4, 2, 7880, 128, 1, 1, b, 255, 510, qp, 4 * Max(1, qp / 4) - 1);
  }
}
