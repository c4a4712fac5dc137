/** The integer transform of src/core/simd_dct.cpp, scalar form: separable passes over a square
    block for any table, and what the 4x4 table loses. */
module Dct {
  import opened Words
  import opened Arithmetic

  // ---- One line ----

  function Clamp16(v: int): i16 { Max(-0x8000, Min(0x7FFF, v)) }

  /** (sum + 2048) >> 12, then the clamp. */
  function Scaled(sum: int): i16 { Clamp16((sum + 2048) / 4096) }

  function Dot(x: seq<int>, c: seq<int>, n: nat): int
    requires n <= |x| && n <= |c|
  {
    if n == 0 then 0 else Dot(x, c, n - 1) + x[n - 1] * c[n - 1]
  }

  /** A table of n rows of n coefficients. */
  ghost predicate IsTable(t: seq<int>, n: nat) { n > 0 && |t| == n * n }

  function At(t: seq<int>, n: nat, k: nat, i: nat): int
    requires IsTable(t, n) && k < n && i < n
  {
    Position(n, n, k, i);
    t[k * n + i]
  }

  function Row(t: seq<int>, n: nat, k: nat): (r: seq<int>)
    requires IsTable(t, n) && k < n
    ensures |r| == n
  {
    seq(n, i requires 0 <= i < n => At(t, n, k, i))
  }

  function Column(t: seq<int>, n: nat, i: nat): (r: seq<int>)
    requires IsTable(t, n) && i < n
    ensures |r| == n
  {
    seq(n, k requires 0 <= k < n => At(t, n, k, i))
  }

  function Dct1(t: seq<int>, n: nat, x: seq<int>): (y: seq<i16>)
    requires IsTable(t, n) && |x| == n
    ensures |y| == n
  {
    seq(n, k requires 0 <= k < n => Scaled(Dot(x, Row(t, n, k), n)))
  }

  function Idct1(t: seq<int>, n: nat, y: seq<int>): (x: seq<i16>)
    requires IsTable(t, n) && |y| == n
    ensures |x| == n
  {
    seq(n, i requires 0 <= i < n => Scaled(Dot(y, Column(t, n, i), n)))
  }

  // ---- A block: rows, then columns; back: columns, then rows ----

  function ForwardRows(t: seq<int>, n: nat, b: seq<int>): (r: seq<i16>)
    requires IsTable(t, n) && IsTable(b, n)
    ensures |r| == n * n
  {
    seq(n * n, j requires 0 <= j < n * n => RowOf(n, n, j); Dct1(t, n, Row(b, n, j / n))[j % n])
  }

  function ForwardColumns(t: seq<int>, n: nat, b: seq<int>): (r: seq<i16>)
    requires IsTable(t, n) && IsTable(b, n)
    ensures |r| == n * n
  {
    seq(n * n, j requires 0 <= j < n * n => RowOf(n, n, j); Dct1(t, n, Column(b, n, j % n))[j / n])
  }

  function InverseColumns(t: seq<int>, n: nat, b: seq<int>): (r: seq<i16>)
    requires IsTable(t, n) && IsTable(b, n)
    ensures |r| == n * n
  {
    seq(n * n, j requires 0 <= j < n * n => RowOf(n, n, j); Idct1(t, n, Column(b, n, j % n))[j / n])
  }

  function InverseRows(t: seq<int>, n: nat, b: seq<int>): (r: seq<i16>)
    requires IsTable(t, n) && IsTable(b, n)
    ensures |r| == n * n
  {
    seq(n * n, j requires 0 <= j < n * n => RowOf(n, n, j); Idct1(t, n, Row(b, n, j / n))[j % n])
  }

  function Forward(t: seq<int>, n: nat, b: seq<int>): (r: seq<i16>)
    requires IsTable(t, n) && IsTable(b, n)
    ensures |r| == n * n
  {
    ForwardColumns(t, n, ForwardRows(t, n, b))
  }

  function Inverse(t: seq<int>, n: nat, b: seq<int>): (r: seq<i16>)
    requires IsTable(t, n) && IsTable(b, n)
    ensures |r| == n * n
  {
    InverseRows(t, n, InverseColumns(t, n, b))
  }

  lemma RowPassRow(t: seq<int>, n: nat, b: seq<int>, y: nat)
    requires IsTable(t, n) && IsTable(b, n) && y < n
    ensures Row(ForwardRows(t, n, b), n, y) == Dct1(t, n, Row(b, n, y))
    ensures Row(InverseRows(t, n, b), n, y) == Idct1(t, n, Row(b, n, y))
  {
    forall c | 0 <= c < n
      ensures Row(ForwardRows(t, n, b), n, y)[c] == Dct1(t, n, Row(b, n, y))[c]
      ensures Row(InverseRows(t, n, b), n, y)[c] == Idct1(t, n, Row(b, n, y))[c]
    {
      Position(n, n, y, c);
    }
  }

  lemma ColumnPassColumn(t: seq<int>, n: nat, b: seq<int>, x: nat)
    requires IsTable(t, n) && IsTable(b, n) && x < n
    ensures Column(ForwardColumns(t, n, b), n, x) == Dct1(t, n, Column(b, n, x))
    ensures Column(InverseColumns(t, n, b), n, x) == Idct1(t, n, Column(b, n, x))
  {
    forall r | 0 <= r < n
      ensures Column(ForwardColumns(t, n, b), n, x)[r] == Dct1(t, n, Column(b, n, x))[r]
      ensures Column(InverseColumns(t, n, b), n, x)[r] == Idct1(t, n, Column(b, n, x))[r]
    {
      Position(n, n, r, x);
    }
  }

  // ---- The 4x4 table ----

  const TABLE4: seq<int> := [
    2048, 2048, 2048, 2048,
    2676, 1108, -1108, -2676,
    2048, -2048, -2048, 2048,
    1108, -2676, 2676, -1108]

  ghost predicate Near(x: seq<int>, y: seq<int>, e: int)
  {
    |x| == |y| && forall i :: 0 <= i < |x| ==> -e <= x[i] - y[i] <= e
  }

  lemma Dot4(x: seq<int>, c: seq<int>)
    requires |x| == 4 && |c| == 4
    ensures Dot(x, c, 4) == x[0] * c[0] + x[1] * c[1] + x[2] * c[2] + x[3] * c[3]
  {
    assert Dot(x, c, 1) == x[0] * c[0];
    assert Dot(x, c, 2) == x[0] * c[0] + x[1] * c[1];
    assert Dot(x, c, 3) == x[0] * c[0] + x[1] * c[1] + x[2] * c[2];
  }

  lemma Table4()
    ensures Row(TABLE4, 4, 0) == [2048, 2048, 2048, 2048] && Row(TABLE4, 4, 1) == [2676, 1108, -1108, -2676]
    ensures Row(TABLE4, 4, 2) == [2048, -2048, -2048, 2048] && Row(TABLE4, 4, 3) == [1108, -2676, 2676, -1108]
    ensures Column(TABLE4, 4, 0) == [2048, 2676, 2048, 1108] && Column(TABLE4, 4, 1) == [2048, 1108, -2048, -2676]
    ensures Column(TABLE4, 4, 2) == [2048, -1108, -2048, 2676] && Column(TABLE4, 4, 3) == [2048, -2676, 2048, -1108]
  {
  }

  /** Scaling without the clamp: the quotient and what rounding adds. */
  lemma ScaledIs(sum: int, bound: int)
    requires -4096 * bound <= sum <= 4096 * bound && 0 <= bound < 0x7FFF
    ensures -2048 <= 4096 * Scaled(sum) - sum <= 2048 && -bound <= Scaled(sum) <= bound
  {
  }

  lemma ProductBound(x: int, c: int, bound: int)
    requires -bound <= x <= bound
    ensures -bound * Abs(c) <= x * c <= bound * Abs(c)
  {
    MulMonotone(x, bound, Abs(c));
    MulMonotone(-bound, x, Abs(c));
  }

  // ---- Quantisation ----

  /** Step of the coefficient at column x, row y. */
  function StepAt(qp: nat, x: nat, y: nat): (s: nat)
    ensures s >= 1
  {
    MulMonotone(1, 1 + (x + y) / 2, Max(1, qp / 4));
    Max(1, qp / 4) * (1 + (x + y) / 2)
  }

  function Quantised(b: seq<int>, n: nat, qp: nat): (r: seq<i16>)
    requires n > 0
    ensures |r| == |b|
  {
    seq(|b|, j requires 0 <= j < |b| => ToI16(TruncDiv(b[j], StepAt(qp, j % n, j / n))))
  }

  function Dequantised(b: seq<int>, n: nat, qp: nat): (r: seq<i16>)
    requires n > 0
    ensures |r| == |b|
  {
    seq(|b|, j requires 0 <= j < |b| => ToI16(b[j] * StepAt(qp, j % n, j / n)))
  }

  /** r lies between 0 and v. */
  ghost predicate Toward0(r: int, v: int) { if v >= 0 then 0 <= r <= v else v <= r <= 0 }

  lemma TruncBack(v: int, s: nat)
    requires s >= 1
    ensures Toward0(TruncDiv(v, s), v) && Toward0(TruncDiv(v, s) * s, v) && Abs(v - TruncDiv(v, s) * s) < s
  {
    var a := Abs(v);
    assert a == a / s * s + a % s;
    MulMonotone(1, s, a / s);
    assert (-(a / s)) * s == -(a / s * s);
  }

  lemma Kept16(v: int, r: int)
    requires -0x8000 <= v < 0x8000 && Toward0(r, v)
    ensures ToI16(r) == r
  {
  }

  lemma LossOf(v: int, s: nat)
    requires s >= 1 && -0x8000 <= v < 0x8000
    ensures var r := ToI16(ToI16(TruncDiv(v, s)) * s); Toward0(r, v) && Abs(v - r) < s
  {
    TruncBack(v, s);
    Kept16(v, TruncDiv(v, s));
    Kept16(v, TruncDiv(v, s) * s);
  }

  /** The coefficient at column x, row y comes back as the multiple of max(1, qp / 4) (1 + (x + y) / 2)
      next to it on the side of zero; nothing overflows. */
  lemma QuantisationLoss(b: seq<int>, n: nat, qp: nat, j: nat, s: nat)
    requires n > 0 && j < |b| && -0x8000 <= b[j] < 0x8000 && s == Max(1, qp / 4) * (1 + (j % n + j / n) / 2)
    ensures s > 0
    ensures var r := Dequantised(Quantised(b, n, qp), n, qp)[j];
      r % s == 0 && Toward0(r, b[j]) && Abs(b[j] - r) < s
  {
    StepIs(qp, j % n, j / n, s);
    BackAt(b, n, qp, j, s);
    LossOf(b[j], s);
    MultipleOf(b[j], s);
  }

  lemma StepIs(qp: nat, x: nat, y: nat, s: nat)
    requires s == Max(1, qp / 4) * (1 + (x + y) / 2)
    ensures s == StepAt(qp, x, y) >= 1
  {
  }

  lemma BackAt(b: seq<int>, n: nat, qp: nat, j: nat, s: nat)
    requires n > 0 && j < |b| && s == StepAt(qp, j % n, j / n)
    ensures Dequantised(Quantised(b, n, qp), n, qp)[j] == ToI16(ToI16(TruncDiv(b[j], s)) * s)
  {
    QuantisedAt(b, n, qp, j, s);
    DequantisedAt(Quantised(b, n, qp), n, qp, j, s);
  }

  lemma QuantisedAt(b: seq<int>, n: nat, qp: nat, j: nat, s: nat)
    requires n > 0 && j < |b| && s == StepAt(qp, j % n, j / n)
    ensures Quantised(b, n, qp)[j] == ToI16(TruncDiv(b[j], s))
  {
  }

  lemma DequantisedAt(b: seq<int>, n: nat, qp: nat, j: nat, s: nat)
    requires n > 0 && j < |b| && s == StepAt(qp, j % n, j / n)
    ensures Dequantised(b, n, qp)[j] == ToI16(b[j] * s)
  {
  }

  lemma MultipleOf(v: int, s: nat)
    requires s >= 1 && -0x8000 <= v < 0x8000
    ensures ToI16(ToI16(TruncDiv(v, s)) * s) % s == 0
  {
    TruncBack(v, s);
    Kept16(v, TruncDiv(v, s));
    Kept16(v, TruncDiv(v, s) * s);
    DivUnique(TruncDiv(v, s) * s, s, TruncDiv(v, s), 0);
  }

  /** What comes back of a block that is transformed, quantised and sent. */
  function Lossy(t: seq<int>, n: nat, b: seq<int>, qp: nat): (r: seq<i16>)
    requires IsTable(t, n) && IsTable(b, n)
    ensures |r| == n * n
  {
    Inverse(t, n, Dequantised(Quantised(Forward(t, n, b), n, qp), n, qp))
  }
}
