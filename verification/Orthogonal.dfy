/** The transform of any size and table: its response to a single sample, and, for tables that are
    orthogonal up to rounding, what lines and blocks lose. */
module Orthogonal {
  import opened Words
  import opened Arithmetic
  import opened Dct

  // ---- Sums ----

  /** The sum of the magnitudes of the first n entries. */
  function Weight(c: seq<int>, n: nat): (w: nat)
    requires n <= |c|
  {
    if n == 0 then 0 else Weight(c, n - 1) + Abs(c[n - 1])
  }

  lemma {:induction false} DotBound(x: seq<int>, c: seq<int>, n: nat, bound: int)
    requires n <= |x| && n <= |c| && Within(x, bound)
    ensures -(bound * Weight(c, n)) <= Dot(x, c, n) <= bound * Weight(c, n)
  {
    if n > 0 {
      DotBound(x, c, n - 1, bound);
      ProductBound(x[n - 1], c[n - 1], bound);
      assert bound * (Weight(c, n - 1) + Abs(c[n - 1])) == bound * Weight(c, n - 1) + bound * Abs(c[n - 1]);
    }
  }

  lemma Spread(s: int, y: int, d: int, r: int, c: int)
    requires s * y == d + r
    ensures s * (y * c) == d * c + r * c
  {
    assert s * (y * c) == (s * y) * c;
  }

  /** A sum whose factors are split in two. */
  lemma {:induction false} DotSplit(y: seq<int>, d: seq<int>, r: seq<int>, c: seq<int>, n: nat, s: int)
    requires n <= |y| && n <= |d| && n <= |r| && n <= |c|
    requires forall k :: 0 <= k < n ==> s * y[k] == d[k] + r[k]
    ensures s * Dot(y, c, n) == Dot(d, c, n) + Dot(r, c, n)
  {
    if n > 0 {
      DotSplit(y, d, r, c, n - 1, s);
      Spread(s, y[n - 1], d[n - 1], r[n - 1], c[n - 1]);
      assert s * (Dot(y, c, n - 1) + y[n - 1] * c[n - 1]) == s * Dot(y, c, n - 1) + s * (y[n - 1] * c[n - 1]);
    }
  }

  /** A sum whose weights grow by a multiple of others. */
  lemma {:induction false} DotPlus(x: seq<int>, g: seq<int>, h: seq<int>, row: seq<int>, s: int, n: nat)
    requires n <= |x| && n <= |g| && n <= |h| && n <= |row|
    requires forall j :: 0 <= j < n ==> h[j] == g[j] + row[j] * s
    ensures Dot(x, h, n) == Dot(x, g, n) + Dot(x, row, n) * s
  {
    if n > 0 {
      DotPlus(x, g, h, row, s, n - 1);
      var a, b := x[n - 1], row[n - 1];
      assert a * (g[n - 1] + b * s) == a * g[n - 1] + a * b * s;
      assert (Dot(x, row, n - 1) + a * b) * s == Dot(x, row, n - 1) * s + a * b * s;
    }
  }

  lemma {:induction false} DotZero(x: seq<int>, g: seq<int>, n: nat)
    requires n <= |x| && n <= |g| && forall j :: 0 <= j < n ==> g[j] == 0
    ensures Dot(x, g, n) == 0
  {
    if n > 0 {
      DotZero(x, g, n - 1);
    }
  }

  /** A sum with one large weight. */
  lemma {:induction false} DotUnit(x: seq<int>, g: seq<int>, eps: seq<int>, i: nat, u: int, n: nat)
    requires n <= |x| && n <= |g| && n <= |eps|
    requires forall j :: 0 <= j < n ==> g[j] == eps[j] + if j == i then u else 0
    ensures Dot(x, g, n) == Dot(x, eps, n) + if i < n then x[i] * u else 0
  {
    if n > 0 {
      DotUnit(x, g, eps, i, u, n - 1);
      if n - 1 == i {
        assert x[i] * (eps[i] + u) == x[i] * eps[i] + x[i] * u;
      }
    }
  }

  // ---- The table against itself ----

  /** Column i against every column, over the first m rows. */
  function Gram(t: seq<int>, n: nat, i: nat, m: nat): (g: seq<int>)
    requires IsTable(t, n) && i < n && m <= n
    ensures |g| == n
  {
    seq(n, j requires 0 <= j < n => Dot(Column(t, n, j), Column(t, n, i), m))
  }

  /** The forward sums of a line. */
  function Sums(t: seq<int>, n: nat, x: seq<int>): (d: seq<int>)
    requires IsTable(t, n) && |x| == n
    ensures |d| == n
  {
    seq(n, k requires 0 <= k < n => Dot(x, Row(t, n, k), n))
  }

  lemma GramStep(t: seq<int>, n: nat, i: nat, m: nat, next: nat, j: nat)
    requires IsTable(t, n) && i < n && j < n && m < n && next == m + 1
    ensures Gram(t, n, i, next)[j] == Gram(t, n, i, m)[j] + Row(t, n, m)[j] * Column(t, n, i)[m]
  {
  }

  /** Back through column i the forward sums are the line against Gram's row. */
  lemma {:induction false} Exchanged(t: seq<int>, n: nat, x: seq<int>, i: nat, m: nat)
    requires IsTable(t, n) && |x| == n && i < n && m <= n
    ensures Dot(Sums(t, n, x), Column(t, n, i), m) == Dot(x, Gram(t, n, i, m), n)
  {
    if m == 0 {
      DotZero(x, Gram(t, n, i, 0), n);
    } else {
      Exchanged(t, n, x, i, m - 1);
      forall j | 0 <= j < n
        ensures Gram(t, n, i, m)[j] == Gram(t, n, i, m - 1)[j] + Row(t, n, m - 1)[j] * Column(t, n, i)[m - 1]
      {
        GramStep(t, n, i, m - 1, m, j);
      }
      DotPlus(x, Gram(t, n, i, m - 1), Gram(t, n, i, m), Row(t, n, m - 1), Column(t, n, i)[m - 1], n);
    }
  }

  /** What Gram's row i is more than 2^24 at i and 0 elsewhere. */
  function Excess(t: seq<int>, n: nat, i: nat): (eps: seq<int>)
    requires IsTable(t, n) && i < n
    ensures |eps| == n
  {
    seq(n, j requires 0 <= j < n => Gram(t, n, i, n)[j] - if j == i then 0x100_0000 else 0)
  }

  /** Columns of length one at right angles: what the products of one of them with all of them are off
      by sums to at most d; the magnitudes of a row sum to at most 4096 c, those of a column to at most a. */
  ghost predicate NearlyOrthogonal(t: seq<int>, n: nat, c: nat, a: nat, d: nat)
  {
    IsTable(t, n) && a <= 4096 * c && forall i :: 0 <= i < n ==> LinesFit(t, n, c, a, i) && ColumnFits(t, n, d, i)
  }

  ghost predicate LinesFit(t: seq<int>, n: nat, c: nat, a: nat, i: nat)
    requires IsTable(t, n) && i < n
  {
    Weight(Row(t, n, i), n) <= 4096 * c && Weight(Column(t, n, i), n) <= a
  }

  ghost predicate ColumnFits(t: seq<int>, n: nat, d: nat, i: nat)
    requires IsTable(t, n) && i < n
  {
    Weight(Excess(t, n, i), n) <= d
  }

  /** The product of two columns, off by at most d. */
  ghost predicate ColumnsFit(t: seq<int>, n: nat, d: nat, i: nat, j: nat)
    requires IsTable(t, n) && i < n && j < n
  {
    Close(Dot(Column(t, n, j), Column(t, n, i), n), if i == j then 4096 * 4096 else 0, d)
  }

  lemma {:induction false} WeightAtMost(s: seq<int>, n: nat, d: nat)
    requires n <= |s| && forall j :: 0 <= j < n ==> Abs(s[j]) <= d
    ensures Weight(s, n) <= n * d
  {
    if n > 0 {
      WeightAtMost(s, n - 1, d);
      assert n * d == (n - 1) * d + d;
    }
  }

  lemma ColumnExcess(t: seq<int>, n: nat, d: nat, i: nat)
    requires IsTable(t, n) && i < n && forall j :: 0 <= j < n ==> ColumnsFit(t, n, d, i, j)
    ensures ColumnFits(t, n, n * d, i)
  {
    forall j | 0 <= j < n
      ensures Abs(Excess(t, n, i)[j]) <= d
    {
      assert ColumnsFit(t, n, d, i, j);
      assert Gram(t, n, i, n)[j] == Dot(Column(t, n, j), Column(t, n, i), n);
    }
    WeightAtMost(Excess(t, n, i), n, d);
  }

  /** It is enough that every product of two columns is off by at most d. */
  lemma EntryByEntry(t: seq<int>, n: nat, c: nat, a: nat, d: nat)
    requires IsTable(t, n) && a <= 4096 * c && forall i :: 0 <= i < n ==> LinesFit(t, n, c, a, i)
    requires forall i, j :: 0 <= i < n && 0 <= j < n ==> ColumnsFit(t, n, d, i, j)
    ensures NearlyOrthogonal(t, n, c, a, n * d)
  {
    forall i | 0 <= i < n
      ensures ColumnFits(t, n, n * d, i)
    {
      ColumnExcess(t, n, d, i);
    }
  }

  // ---- One line ----

  lemma SumLimit(sum: int, w: nat, c: nat, bound: nat, m: nat)
    requires -(bound * w) <= sum <= bound * w && w <= 4096 * c && m == c * bound
    ensures -4096 * m <= sum <= 4096 * m
  {
    MulMonotone(w, 4096 * c, bound);
    assert bound * w == w * bound && 4096 * c * bound == 4096 * (c * bound);
  }

  /** A sum that stays below the clamp. */
  lemma SumSmall(x: seq<int>, row: seq<int>, n: nat, c: nat, bound: nat, m: nat, s: int)
    requires n == |x| == |row| && Within(x, bound) && Weight(row, n) <= 4096 * c
    requires m == c * bound < 0x7FFF && s == Scaled(Dot(x, row, n))
    ensures -2048 <= 4096 * s - Dot(x, row, n) <= 2048 && 0 - m <= s <= m
  {
    DotBound(x, row, n, bound);
    SumLimit(Dot(x, row, n), Weight(row, n), c, bound, m);
    ScaledIs(Dot(x, row, n), m);
  }

  /** The coefficients of a line that are off by at most e. */
  lemma Coefficient(t: seq<int>, n: nat, c: nat, a: nat, d: nat, x: seq<int>, y: seq<int>, bound: nat, m: nat,
                    e: nat, k: nat)
    requires NearlyOrthogonal(t, n, c, a, d) && |x| == n && k < n && Within(x, bound)
    requires m == c * bound < 0x7FFF && Near(y, Dct1(t, n, x), e)
    ensures -(2048 + 4096 * e) <= 4096 * y[k] - Sums(t, n, x)[k] <= 2048 + 4096 * e
    ensures -(m + e) <= y[k] <= m + e
  {
    assert LinesFit(t, n, c, a, k);
    SumSmall(x, Row(t, n, k), n, c, bound, m, Dct1(t, n, x)[k]);
  }

  /** 2^24 times what comes back, less 2^24 times the sample: the table's excess, what the
      coefficients are off, and the rounding of the last sum. */
  lemma Back(t: seq<int>, n: nat, x: seq<int>, y: seq<int>, r: seq<int>, i: nat)
    requires IsTable(t, n) && |x| == |y| == |r| == n && i < n
    requires forall k :: 0 <= k < n ==> r[k] == 4096 * y[k] - Sums(t, n, x)[k]
    ensures 4096 * Dot(y, Column(t, n, i), n)
         == x[i] * 0x100_0000 + Dot(x, Excess(t, n, i), n) + Dot(r, Column(t, n, i), n)
  {
    DotSplit(y, Sums(t, n, x), r, Column(t, n, i), n, 4096);
    Exchanged(t, n, x, i, n);
    DotUnit(x, Gram(t, n, i, n), Excess(t, n, i), i, 0x100_0000, n);
  }

  /** The arithmetic of the bound. */
  lemma BackBound(x: int, z: int, w: int, p: int, q: int, a: nat, c: nat, rho: nat, l: nat, bound: nat, e: nat)
    requires 4096 * w == x * 0x100_0000 + p + q && -2048 <= 4096 * z - w <= 2048
    requires -(bound * rho) <= p <= bound * rho && -((2048 + 4096 * e) * a) <= q <= (2048 + 4096 * e) * a
    requires a <= 4096 * c && bound * rho + 2048 * a + 0x80_0000 < 0x100_0000 * (l + 1)
    ensures -(l + c * e) <= z - x <= l + c * e
  {
    MulMonotone(a, 4096 * c, 4096 * e);
    assert 4096 * c * (4096 * e) == 0x100_0000 * (c * e);
    assert (2048 + 4096 * e) * a == 2048 * a + a * (4096 * e);
    Rounded(z - x, l + c * e, 4096 * (4096 * z - w) + p + q);
  }

  lemma Rounded(d: int, m: int, v: int)
    requires 0x100_0000 * d == v && -(0x100_0000 * (m + 1)) < v < 0x100_0000 * (m + 1)
    ensures -m <= d <= m
  {
  }

  /** A line whose coefficients are off by at most e comes back within l + c e, as long as the clamp
      is out of reach, for every table that is nearly orthogonal. */
  lemma LineComesBack(t: seq<int>, n: nat, c: nat, a: nat, d: nat, l: nat, x: seq<int>, y: seq<int>, z: seq<int>,
                      bound: nat, e: nat)
    requires NearlyOrthogonal(t, n, c, a, d) && bound * d + 2048 * a + 0x80_0000 < 0x100_0000 * (l + 1)
    requires |x| == n && Within(x, bound) && c * bound < 0x7FFF && c * (c * bound + e) < 0x7FFF
    requires Near(y, Dct1(t, n, x), e) && z == Idct1(t, n, y)
    ensures Near(z, x, l + c * e)
  {
    var m := c * bound;
    var r := seq(n, k requires 0 <= k < n => 4096 * y[k] - Sums(t, n, x)[k]);
    forall k | 0 <= k < n
      ensures -(2048 + 4096 * e) <= r[k] <= 2048 + 4096 * e && -(m + e) <= y[k] <= m + e
    {
      Coefficient(t, n, c, a, d, x, y, bound, m, e, k);
    }
    forall i | 0 <= i < n
      ensures -(l + c * e) <= z[i] - x[i] <= l + c * e
    {
      SampleComesBack(t, n, c, a, d, l, x, y, z, r, bound, m + e, c * (m + e), e, 2048 + 4096 * e, d, i);
    }
  }

  lemma SampleComesBack(t: seq<int>, n: nat, c: nat, a: nat, d: nat, l: nat, x: seq<int>, y: seq<int>, z: seq<int>,
                        r: seq<int>, bound: nat, m: nat, cm: nat, e: nat, off: nat, rho: nat, i: nat)
    requires NearlyOrthogonal(t, n, c, a, d) && bound * rho + 2048 * a + 0x80_0000 < 0x100_0000 * (l + 1)
    requires |x| == |y| == |r| == n && Within(x, bound) && cm == c * m < 0x7FFF && z == Idct1(t, n, y) && i < n
    requires Within(y, m) && off == 2048 + 4096 * e && Within(r, off) && rho == d
    requires forall k :: 0 <= k < n ==> r[k] == 4096 * y[k] - Sums(t, n, x)[k]
    ensures -(l + c * e) <= z[i] - x[i] <= l + c * e
  {
    var col, eps := Column(t, n, i), Excess(t, n, i);
    assert LinesFit(t, n, c, a, i) && ColumnFits(t, n, d, i);
    Back(t, n, x, y, r, i);
    SumSmall(y, col, n, c, m, cm, z[i]);
    ExcessBound(x, eps, n, bound, rho);
    ExcessBound(r, col, n, off, a);
    BackBound(x[i], z[i], Dot(y, col, n), Dot(x, eps, n), Dot(r, col, n), a, c, rho, l, bound, e);
  }

  lemma ExcessBound(x: seq<int>, eps: seq<int>, n: nat, bound: nat, rho: nat)
    requires n == |x| == |eps| && Within(x, bound) && Weight(eps, n) <= rho
    ensures -(bound * rho) <= Dot(x, eps, n) <= bound * rho
  {
    DotBound(x, eps, n, bound);
    var w := Weight(eps, n);
    MulMonotone(w, rho, bound);
    assert w * bound == bound * w && rho * bound == bound * rho;
  }

  // ---- A single sample ----

  /** The line that is v at i and 0 elsewhere. */
  function Impulse(n: nat, i: nat, v: int): (x: seq<int>)
    ensures |x| == n
  {
    seq(n, j => if j == i then v else 0)
  }

  lemma {:induction false} DotImpulse(x: seq<int>, c: seq<int>, n: nat, i: nat, v: int)
    requires n <= |x| && n <= |c| && forall j :: 0 <= j < n ==> x[j] == if j == i then v else 0
    ensures Dot(x, c, n) == if i < n then v * c[i] else 0
  {
    if n > 0 {
      DotImpulse(x, c, n - 1, i, v);
    }
  }

  /** A single sample of 4096 brings out the table: entry (k, i) is coefficient k of sample i on the
      way there, and sample i of coefficient k on the way back. */
  lemma LineResponse(t: seq<int>, n: nat, k: nat, i: nat)
    requires IsTable(t, n) && k < n && i < n && k * n + i < |t| && -0x8000 <= t[k * n + i] < 0x8000
    ensures Dct1(t, n, Impulse(n, i, 4096))[k] == t[k * n + i]
    ensures Idct1(t, n, Impulse(n, k, 4096))[i] == t[k * n + i]
  {
    DotImpulse(Impulse(n, i, 4096), Row(t, n, k), n, i, 4096);
    DotImpulse(Impulse(n, k, 4096), Column(t, n, i), n, k, 4096);
    Exact(t[k * n + i]);
  }

  lemma Exact(v: int)
    requires -0x8000 <= v < 0x8000
    ensures Scaled(4096 * v) == v
  {
  }

  /** The block that is 4096 at row r, column c and 0 elsewhere. */
  function BlockImpulse(n: nat, r: nat, c: nat): (b: seq<int>)
    requires r < n && c < n
    ensures |b| == n * n
  {
    seq(n * n, j => if j == r * n + c then 4096 else 0)
  }

  lemma ImpulseAt(n: nat, r: nat, c: nat, y: nat, x: nat)
    requires r < n && c < n && y < n && x < n
    ensures y * n + x < n * n
    ensures BlockImpulse(n, r, c)[y * n + x] == if y == r && x == c then 4096 else 0
  {
    Position(n, n, r, c);
    Position(n, n, y, x);
  }

  lemma ImpulseLines(n: nat, r: nat, c: nat, k: nat)
    requires r < n && c < n && k < n
    ensures Row(BlockImpulse(n, r, c), n, k) == Impulse(n, c, if k == r then 4096 else 0)
    ensures Column(BlockImpulse(n, r, c), n, k) == Impulse(n, r, if k == c then 4096 else 0)
  {
    forall j | 0 <= j < n
      ensures Row(BlockImpulse(n, r, c), n, k)[j] == Impulse(n, c, if k == r then 4096 else 0)[j]
      ensures Column(BlockImpulse(n, r, c), n, k)[j] == Impulse(n, r, if k == c then 4096 else 0)[j]
    {
      ImpulseAt(n, r, c, k, j);
      ImpulseAt(n, r, c, j, k);
    }
  }

  /** Entries of at most one in size. */
  ghost predicate Unit(t: seq<int>) { Within(t, 4096) }

  /** A single coefficient of an impulse of any height. */
  lemma OneCoefficient(t: seq<int>, n: nat, k: nat, i: nat, v: int)
    requires IsTable(t, n) && Unit(t) && k < n && i < n && -4096 <= v <= 4096
    ensures k * n + i < |t|
    ensures Dct1(t, n, Impulse(n, i, v))[k] == (v * t[k * n + i] + 2048) / 4096
    ensures Idct1(t, n, Impulse(n, k, v))[i] == (v * t[k * n + i] + 2048) / 4096
  {
    Position(n, n, k, i);
    DotImpulse(Impulse(n, i, v), Row(t, n, k), n, i, v);
    DotImpulse(Impulse(n, k, v), Column(t, n, i), n, k, v);
    UnitProduct(v, t[k * n + i]);
  }

  lemma UnitProduct(v: int, w: int)
    requires -4096 <= v <= 4096 && -4096 <= w <= 4096
    ensures Scaled(v * w) == (v * w + 2048) / 4096
  {
    ProductBound(v, w, 4096);
    MulMonotone(Abs(w), 4096, 4096);
  }

  /** One sample through both forward passes: the product of two table entries, rounded. */
  lemma ForwardResponse(t: seq<int>, n: nat, r: nat, c: nat, k: nat, l: nat)
    requires IsTable(t, n) && Unit(t) && r < n && c < n && k < n && l < n
    ensures At(Forward(t, n, BlockImpulse(n, r, c)), n, k, l) == (At(t, n, l, c) * At(t, n, k, r) + 2048) / 4096
  {
    var b := BlockImpulse(n, r, c);
    var u := ForwardRows(t, n, b);
    Position(n, n, k, l);
    Position(n, n, l, c);
    var v := At(t, n, l, c);
    forall y | 0 <= y < n
      ensures Column(u, n, l)[y] == Impulse(n, r, v)[y]
    {
      RowPassRow(t, n, b, y);
      ImpulseLines(n, r, c, y);
      OneCoefficient(t, n, l, c, if y == r then 4096 else 0);
      Position(n, n, y, l);
      Exact(v);
    }
    assert Column(u, n, l) == Impulse(n, r, v);
    ColumnPassColumn(t, n, u, l);
    OneCoefficient(t, n, k, r, v);
  }

  /** One coefficient through both passes back. */
  lemma InverseResponse(t: seq<int>, n: nat, r: nat, c: nat, k: nat, l: nat)
    requires IsTable(t, n) && Unit(t) && r < n && c < n && k < n && l < n
    ensures At(Inverse(t, n, BlockImpulse(n, k, l)), n, r, c) == (At(t, n, k, r) * At(t, n, l, c) + 2048) / 4096
  {
    var b := BlockImpulse(n, k, l);
    var u := InverseColumns(t, n, b);
    Position(n, n, r, c);
    Position(n, n, k, r);
    var v := At(t, n, k, r);
    forall x | 0 <= x < n
      ensures Row(u, n, r)[x] == Impulse(n, l, v)[x]
    {
      ColumnPassColumn(t, n, b, x);
      ImpulseLines(n, k, l, x);
      OneCoefficient(t, n, k, r, if x == l then 4096 else 0);
      Position(n, n, r, x);
      Exact(v);
    }
    assert Row(u, n, r) == Impulse(n, l, v);
    RowPassRow(t, n, u, r);
    OneCoefficient(t, n, l, c, v);
  }

  // ---- One block ----

  lemma LinesOf(b: seq<int>, n: nat, k: nat, bound: int)
    requires IsTable(b, n) && k < n && Within(b, bound)
    ensures Within(Row(b, n, k), bound) && Within(Column(b, n, k), bound)
  {
    forall i | 0 <= i < n
      ensures -bound <= Row(b, n, k)[i] <= bound && -bound <= Column(b, n, k)[i] <= bound
    {
      Position(n, n, k, i);
      Position(n, n, i, k);
    }
  }

  lemma NearAt(a: seq<int>, b: seq<int>, n: nat, y: nat, x: nat, e: int)
    requires IsTable(a, n) && IsTable(b, n) && y < n && x < n && Near(a, b, e)
    ensures Close(At(a, n, y, x), At(b, n, y, x), e)
  {
    Position(n, n, y, x);
  }

  lemma NearFromAll(a: seq<int>, b: seq<int>, n: nat, e: int)
    requires IsTable(a, n) && IsTable(b, n)
    requires forall y, x :: 0 <= y < n && 0 <= x < n ==> Close(At(a, n, y, x), At(b, n, y, x), e)
    ensures Near(a, b, e)
  {
    forall j | 0 <= j < n * n
      ensures -e <= a[j] - b[j] <= e
    {
      RowOf(n, n, j);
      assert Close(At(a, n, j / n, j % n), At(b, n, j / n, j % n), e);
    }
  }

  /** One column through the two column passes. */
  lemma ColumnComesBack(t: seq<int>, n: nat, c: nat, a: nat, d: nat, l: nat, p: seq<int>, u: seq<int>, bound: nat,
                        e: nat, x: nat)
    requires NearlyOrthogonal(t, n, c, a, d) && bound * d + 2048 * a + 0x80_0000 < 0x100_0000 * (l + 1)
    requires IsTable(p, n) && Within(p, bound) && c * bound < 0x7FFF && c * (c * bound + e) < 0x7FFF
    requires Near(u, ForwardColumns(t, n, p), e) && x < n
    ensures Near(Column(InverseColumns(t, n, u), n, x), Column(p, n, x), l + c * e)
  {
    ColumnPassColumn(t, n, p, x);
    ColumnPassColumn(t, n, u, x);
    LinesOf(p, n, x, bound);
    forall y | 0 <= y < n
      ensures Close(Column(u, n, x)[y], Column(ForwardColumns(t, n, p), n, x)[y], e)
    {
      NearAt(u, ForwardColumns(t, n, p), n, y, x, e);
    }
    LineComesBack(t, n, c, a, d, l, Column(p, n, x), Column(u, n, x), Column(InverseColumns(t, n, u), n, x), bound, e);
  }

  lemma ColumnsComeBack(t: seq<int>, n: nat, c: nat, a: nat, d: nat, l: nat, p: seq<int>, u: seq<int>, bound: nat,
                        e: nat)
    requires NearlyOrthogonal(t, n, c, a, d) && bound * d + 2048 * a + 0x80_0000 < 0x100_0000 * (l + 1)
    requires IsTable(p, n) && Within(p, bound) && c * bound < 0x7FFF && c * (c * bound + e) < 0x7FFF
    requires Near(u, ForwardColumns(t, n, p), e)
    ensures Near(InverseColumns(t, n, u), p, l + c * e)
  {
    var v := InverseColumns(t, n, u);
    forall y, x | 0 <= y < n && 0 <= x < n
      ensures Close(At(v, n, y, x), At(p, n, y, x), l + c * e)
    {
      ColumnComesBack(t, n, c, a, d, l, p, u, bound, e, x);
      assert Close(Column(v, n, x)[y], Column(p, n, x)[y], l + c * e);
    }
    NearFromAll(v, p, n, l + c * e);
  }

  /** One row through the two row passes. */
  lemma RowComesBack(t: seq<int>, n: nat, c: nat, a: nat, d: nat, l: nat, b: seq<int>, v: seq<int>, bound: nat,
                     e: nat, y: nat)
    requires NearlyOrthogonal(t, n, c, a, d) && bound * d + 2048 * a + 0x80_0000 < 0x100_0000 * (l + 1)
    requires IsTable(b, n) && Within(b, bound) && c * bound < 0x7FFF && c * (c * bound + e) < 0x7FFF
    requires Near(v, ForwardRows(t, n, b), e) && y < n
    ensures Near(Row(InverseRows(t, n, v), n, y), Row(b, n, y), l + c * e)
  {
    RowPassRow(t, n, b, y);
    RowPassRow(t, n, v, y);
    LinesOf(b, n, y, bound);
    forall x | 0 <= x < n
      ensures Close(Row(v, n, y)[x], Row(ForwardRows(t, n, b), n, y)[x], e)
    {
      NearAt(v, ForwardRows(t, n, b), n, y, x, e);
    }
    LineComesBack(t, n, c, a, d, l, Row(b, n, y), Row(v, n, y), Row(InverseRows(t, n, v), n, y), bound, e);
  }

  lemma RowsComeBack(t: seq<int>, n: nat, c: nat, a: nat, d: nat, l: nat, b: seq<int>, v: seq<int>, bound: nat, e: nat)
    requires NearlyOrthogonal(t, n, c, a, d) && bound * d + 2048 * a + 0x80_0000 < 0x100_0000 * (l + 1)
    requires IsTable(b, n) && Within(b, bound) && c * bound < 0x7FFF && c * (c * bound + e) < 0x7FFF
    requires Near(v, ForwardRows(t, n, b), e)
    ensures Near(InverseRows(t, n, v), b, l + c * e)
  {
    var z := InverseRows(t, n, v);
    forall y, x | 0 <= y < n && 0 <= x < n
      ensures Close(At(z, n, y, x), At(b, n, y, x), l + c * e)
    {
      RowComesBack(t, n, c, a, d, l, b, v, bound, e, y);
      assert Close(Row(z, n, y)[x], Row(b, n, y)[x], l + c * e);
    }
    NearFromAll(z, b, n, l + c * e);
  }

  /** One coefficient of a line. */
  lemma CoefficientSmall(t: seq<int>, n: nat, c: nat, a: nat, d: nat, x: seq<int>, bound: nat, m: nat, k: nat)
    requires NearlyOrthogonal(t, n, c, a, d) && |x| == n && Within(x, bound) && m == c * bound < 0x7FFF && k < n
    ensures 0 - m <= Dct1(t, n, x)[k] <= m
  {
    assert LinesFit(t, n, c, a, k);
    SumSmall(x, Row(t, n, k), n, c, bound, m, Dct1(t, n, x)[k]);
  }

  lemma RowsSmall(t: seq<int>, n: nat, c: nat, a: nat, d: nat, b: seq<int>, bound: nat, m: nat)
    requires NearlyOrthogonal(t, n, c, a, d) && IsTable(b, n) && Within(b, bound) && m == c * bound < 0x7FFF
    ensures Within(ForwardRows(t, n, b), m)
  {
    forall j | 0 <= j < n * n
      ensures 0 - m <= ForwardRows(t, n, b)[j] <= m
    {
      RowOf(n, n, j);
      LinesOf(b, n, j / n, bound);
      CoefficientSmall(t, n, c, a, d, Row(b, n, j / n), bound, m, j % n);
    }
  }

  lemma ColumnsSmall(t: seq<int>, n: nat, c: nat, a: nat, d: nat, p: seq<int>, bound: nat, m: nat)
    requires NearlyOrthogonal(t, n, c, a, d) && IsTable(p, n) && Within(p, bound) && m == c * bound < 0x7FFF
    ensures Within(ForwardColumns(t, n, p), m)
  {
    forall j | 0 <= j < n * n
      ensures 0 - m <= ForwardColumns(t, n, p)[j] <= m
    {
      RowOf(n, n, j);
      LinesOf(p, n, j % n, bound);
      CoefficientSmall(t, n, c, a, d, Column(p, n, j % n), bound, m, j / n);
    }
  }

  /** Main result for blocks of any size: coefficients off by at most e give samples off by at most
      l + c (m + c e), l and m being what one line loses in the rows and in the columns. */
  lemma BlockComesBack(t: seq<int>, n: nat, c: nat, a: nat, d: nat, l: nat, m: nat, b: seq<int>, u: seq<int>,
                       bound: nat, tall: nat, e: nat)
    requires NearlyOrthogonal(t, n, c, a, d) && IsTable(b, n) && Within(b, bound) && tall == c * bound
    requires bound * d + 2048 * a + 0x80_0000 < 0x100_0000 * (l + 1)
    requires tall * d + 2048 * a + 0x80_0000 < 0x100_0000 * (m + 1)
    requires c * (tall + (m + c * e)) < 0x7FFF && c * tall < 0x7FFF && c * (c * tall + e) < 0x7FFF && tall < 0x7FFF
    requires Near(u, Forward(t, n, b), e)
    ensures Near(Inverse(t, n, u), b, l + c * (m + c * e))
  {
    var p, v := ForwardRows(t, n, b), InverseColumns(t, n, u);
    RowsSmall(t, n, c, a, d, b, bound, tall);
    ColumnsComeBack(t, n, c, a, d, m, p, u, tall, e);
    RowsComeBack(t, n, c, a, d, l, b, v, bound, m + c * e);
  }
}
