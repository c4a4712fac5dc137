/** The loops of src/core/simd_dct.cpp:47-167, for any table and block size: strided one-line
    transforms, the two passes each way, and quantisation in place. */
module DctLoops {
  import opened Words
  import opened Arithmetic
  import opened Dct

  // ---- Strided lines ----

  function Place(off: nat, step: nat, i: nat): nat { off + i * step }

  ghost predicate LineIn(off: nat, step: nat, n: nat, len: nat)
  {
    forall i: nat :: i < n ==> Place(off, step, i) < len
  }

  ghost function Line(s: seq<int>, off: nat, step: nat, n: nat): (x: seq<int>)
    requires LineIn(off, step, n, |s|)
    ensures |x| == n
  {
    seq(n, i requires 0 <= i < n => s[Place(off, step, i)])
  }

  /** s with the first k places of a line overwritten. */
  ghost function Written(s: seq<int>, off: nat, step: nat, vals: seq<int>, k: nat): (r: seq<int>)
    requires k <= |vals| && LineIn(off, step, |vals|, |s|)
    ensures |r| == |s|
  {
    if k == 0 then s else Written(s, off, step, vals, k - 1)[Place(off, step, k - 1) := vals[k - 1]]
  }

  lemma PlacesDiffer(off: nat, step: nat, i: nat, k: nat)
    requires step > 0 && i < k
    ensures Place(off, step, i) < Place(off, step, k)
  {
    MulMonotone(i + 1, k, step);
  }

  lemma {:induction false} WrittenHit(s: seq<int>, off: nat, step: nat, vals: seq<int>, k: nat, i: nat)
    requires i < k <= |vals| && step > 0 && LineIn(off, step, |vals|, |s|)
    ensures Place(off, step, i) < |s| && Written(s, off, step, vals, k)[Place(off, step, i)] == vals[i]
  {
    if i < k - 1 {
      WrittenHit(s, off, step, vals, k - 1, i);
      PlacesDiffer(off, step, i, k - 1);
    }
  }

  lemma {:induction false} WrittenMiss(s: seq<int>, off: nat, step: nat, vals: seq<int>, k: nat, j: nat)
    requires k <= |vals| && LineIn(off, step, |vals|, |s|) && j < |s|
    requires forall i: nat :: i < k ==> Place(off, step, i) != j
    ensures Written(s, off, step, vals, k)[j] == s[j]
  {
    if k > 0 {
      WrittenMiss(s, off, step, vals, k - 1, j);
    }
  }

  method Dct1D(src: seq<i16>, srcOff: nat, srcStep: nat, dst: array<i16>, dstOff: nat, dstStep: nat, n: nat,
               cosTable: seq<int>)
    requires IsTable(cosTable, n) && LineIn(srcOff, srcStep, n, |src|) && LineIn(dstOff, dstStep, n, dst.Length)
    modifies dst
    ensures dst[..] == Written(old(dst[..]), dstOff, dstStep, Dct1(cosTable, n, Line(src, srcOff, srcStep, n)), n)
  {
    ghost var x, before := Line(src, srcOff, srcStep, n), dst[..];
    for k := 0 to n
      invariant dst[..] == Written(before, dstOff, dstStep, Dct1(cosTable, n, x), k)
    {
      var sum := 0;
      for i := 0 to n
        invariant sum == Dot(x, Row(cosTable, n, k), i)
      {
        assert x[i] == src[Place(srcOff, srcStep, i)] && Row(cosTable, n, k)[i] == At(cosTable, n, k, i);
        sum := sum + src[srcOff + i * srcStep] * At(cosTable, n, k, i);
      }
      assert Dct1(cosTable, n, x)[k] == Scaled(sum) && Place(dstOff, dstStep, k) < dst.Length;
      dst[dstOff + k * dstStep] := Scaled(sum);
    }
  }

  method Idct1D(src: seq<i16>, srcOff: nat, srcStep: nat, dst: array<i16>, dstOff: nat, dstStep: nat, n: nat,
                cosTable: seq<int>)
    requires IsTable(cosTable, n) && LineIn(srcOff, srcStep, n, |src|) && LineIn(dstOff, dstStep, n, dst.Length)
    modifies dst
    ensures dst[..] == Written(old(dst[..]), dstOff, dstStep, Idct1(cosTable, n, Line(src, srcOff, srcStep, n)), n)
  {
    ghost var y, before := Line(src, srcOff, srcStep, n), dst[..];
    for i := 0 to n
      invariant dst[..] == Written(before, dstOff, dstStep, Idct1(cosTable, n, y), i)
    {
      var sum := 0;
      for k := 0 to n
        invariant sum == Dot(y, Column(cosTable, n, i), k)
      {
        assert y[k] == src[Place(srcOff, srcStep, k)] && Column(cosTable, n, i)[k] == At(cosTable, n, k, i);
        sum := sum + src[srcOff + k * srcStep] * At(cosTable, n, k, i);
      }
      assert Idct1(cosTable, n, y)[i] == Scaled(sum) && Place(dstOff, dstStep, i) < dst.Length;
      dst[dstOff + i * dstStep] := Scaled(sum);
    }
  }

  // ---- A block inside a larger buffer ----

  /** The buffer holds n rows of n samples, `stride` places apart. */
  ghost predicate Holds(stride: nat, n: nat, len: nat)
  {
    n > 0 && n <= stride && (n - 1) * stride + n <= len
  }

  lemma InBuffer(stride: nat, n: nat, len: nat, y: nat, x: nat)
    requires Holds(stride, n, len) && y < n && x < n
    ensures y * stride + x < len && (y * stride + x) / stride == y && (y * stride + x) % stride == x
  {
    MulMonotone(y, n - 1, stride);
    Position(stride, n, y, x);
  }

  ghost function BlockOf(s: seq<int>, stride: nat, n: nat): (b: seq<int>)
    requires Holds(stride, n, |s|)
    ensures |b| == n * n
  {
    seq(n * n, j requires 0 <= j < n * n => InBlock(stride, n, |s|, j); s[j / n * stride + j % n])
  }

  lemma InBlock(stride: nat, n: nat, len: nat, j: nat)
    requires Holds(stride, n, len) && j < n * n
    ensures 0 <= j / n * stride + j % n < len
  {
    RowOf(n, n, j);
    InBuffer(stride, n, len, j / n, j % n);
  }

  /** Sample (y, x) of a block. */
  lemma BlockAt(s: seq<int>, stride: nat, n: nat, y: nat, x: nat)
    requires Holds(stride, n, |s|) && y < n && x < n
    ensures y * stride + x < |s| && At(BlockOf(s, stride, n), n, y, x) == s[y * stride + x]
  {
    InBuffer(stride, n, |s|, y, x);
    Position(n, n, y, x);
  }

  lemma RowIsLine(s: seq<int>, stride: nat, n: nat, y: nat)
    requires Holds(stride, n, |s|) && y < n
    ensures LineIn(y * stride, 1, n, |s|) && Line(s, y * stride, 1, n) == Row(BlockOf(s, stride, n), n, y)
  {
    forall x: nat | x < n
      ensures Place(y * stride, 1, x) < |s|
      ensures s[Place(y * stride, 1, x)] == At(BlockOf(s, stride, n), n, y, x)
    {
      BlockAt(s, stride, n, y, x);
    }
  }

  lemma ColumnIsLine(s: seq<int>, stride: nat, n: nat, x: nat)
    requires Holds(stride, n, |s|) && x < n
    ensures LineIn(x, stride, n, |s|) && Line(s, x, stride, n) == Column(BlockOf(s, stride, n), n, x)
  {
    forall y: nat | y < n
      ensures Place(x, stride, y) < |s|
      ensures s[Place(x, stride, y)] == At(BlockOf(s, stride, n), n, y, x)
    {
      BlockAt(s, stride, n, y, x);
    }
  }

  /** What is in place j once `rows` rows and `cols` columns of the block are written. */
  ghost function PutAt(before: seq<int>, spec: seq<int>, stride: nat, n: nat, rows: nat, cols: nat, j: nat): int
    requires stride > 0 && IsTable(spec, n) && rows <= n && cols <= n && j < |before|
  {
    if j / stride < rows && j % stride < cols then At(spec, n, j / stride, j % stride) else before[j]
  }

  /** Nothing but the first rows and columns of the block has changed. */
  ghost predicate Put(before: seq<int>, now: seq<int>, spec: seq<int>, stride: nat, n: nat, rows: nat, cols: nat)
    requires stride > 0 && IsTable(spec, n) && rows <= n && cols <= n
  {
    now == PutIn(before, spec, stride, n, rows, cols)
  }

  ghost function PutIn(before: seq<int>, spec: seq<int>, stride: nat, n: nat, rows: nat, cols: nat): (r: seq<int>)
    requires stride > 0 && IsTable(spec, n) && rows <= n && cols <= n
    ensures |r| == |before|
  {
    seq(|before|, j requires 0 <= j < |before| => PutAt(before, spec, stride, n, rows, cols, j))
  }

  lemma RowWritten(before: seq<int>, s: seq<int>, spec: seq<int>, stride: nat, n: nat, y: nat, vals: seq<int>)
    requires Holds(stride, n, |s|) && IsTable(spec, n) && y < n && vals == Row(spec, n, y)
    requires Put(before, s, spec, stride, n, y, n)
    ensures LineIn(y * stride, 1, n, |s|)
    ensures Put(before, Written(s, y * stride, 1, vals, n), spec, stride, n, y + 1, n)
  {
    RowIsLine(s, stride, n, y);
    forall j | 0 <= j < |s|
      ensures Written(s, y * stride, 1, vals, n)[j] == PutAt(before, spec, stride, n, y + 1, n, j)
    {
      RowPlace(s, spec, stride, n, y, vals, j);
    }
  }

  lemma RowPlace(s: seq<int>, spec: seq<int>, stride: nat, n: nat, y: nat, vals: seq<int>, j: nat)
    requires Holds(stride, n, |s|) && IsTable(spec, n) && y < n && vals == Row(spec, n, y)
    requires LineIn(y * stride, 1, n, |s|) && j < |s|
    ensures Written(s, y * stride, 1, vals, n)[j]
         == if j / stride == y && j % stride < n then At(spec, n, y, j % stride) else s[j]
  {
    if j / stride == y && j % stride < n {
      RowHit(s, spec, stride, n, y, vals, j, j % stride);
    } else {
      NotInRow(stride, n, |s|, y, j);
      WrittenMiss(s, y * stride, 1, vals, n, j);
    }
  }

  lemma RowHit(s: seq<int>, spec: seq<int>, stride: nat, n: nat, y: nat, vals: seq<int>, j: nat, c: nat)
    requires Holds(stride, n, |s|) && IsTable(spec, n) && y < n && vals == Row(spec, n, y)
    requires LineIn(y * stride, 1, n, |s|) && j < |s| && c < n && j == y * stride + c
    ensures Written(s, y * stride, 1, vals, n)[j] == At(spec, n, y, c)
  {
    assert Place(y * stride, 1, c) == j;
    WrittenHit(s, y * stride, 1, vals, n, c);
  }

  lemma NotInRow(stride: nat, n: nat, len: nat, y: nat, j: nat)
    requires Holds(stride, n, len) && y < n && !(j / stride == y && j % stride < n)
    ensures forall i: nat :: i < n ==> Place(y * stride, 1, i) != j
  {
    forall i: nat | i < n
      ensures Place(y * stride, 1, i) != j
    {
      InBuffer(stride, n, len, y, i);
      assert Place(y * stride, 1, i) == y * stride + i;
    }
  }

  lemma ColumnWritten(before: seq<int>, s: seq<int>, spec: seq<int>, stride: nat, n: nat, x: nat, vals: seq<int>)
    requires Holds(stride, n, |s|) && IsTable(spec, n) && x < n && vals == Column(spec, n, x)
    requires Put(before, s, spec, stride, n, n, x)
    ensures LineIn(x, stride, n, |s|)
    ensures Put(before, Written(s, x, stride, vals, n), spec, stride, n, n, x + 1)
  {
    ColumnIsLine(s, stride, n, x);
    forall j | 0 <= j < |s|
      ensures Written(s, x, stride, vals, n)[j] == PutAt(before, spec, stride, n, n, x + 1, j)
    {
      ColumnPlace(s, spec, stride, n, x, vals, j, j / stride, j % stride);
      OneColumnMore(before, spec, stride, n, x, x + 1, j);
    }
  }

  lemma OneColumnMore(before: seq<int>, spec: seq<int>, stride: nat, n: nat, x: nat, next: nat, j: nat)
    requires stride > 0 && IsTable(spec, n) && x < n && next == x + 1 && j < |before|
    ensures j % stride == x && j / stride < n ==>
      PutAt(before, spec, stride, n, n, next, j) == At(spec, n, j / stride, x)
    ensures !(j % stride == x && j / stride < n) ==>
      PutAt(before, spec, stride, n, n, next, j) == PutAt(before, spec, stride, n, n, x, j)
  {
  }

  lemma ColumnPlace(s: seq<int>, spec: seq<int>, stride: nat, n: nat, x: nat, vals: seq<int>, j: nat, q: nat, r: nat)
    requires Holds(stride, n, |s|) && IsTable(spec, n) && x < n && vals == Column(spec, n, x)
    requires LineIn(x, stride, n, |s|) && j < |s| && q == j / stride && r == j % stride
    ensures r == x && q < n ==> Written(s, x, stride, vals, n)[j] == At(spec, n, q, x)
    ensures !(r == x && q < n) ==> Written(s, x, stride, vals, n)[j] == s[j]
  {
    if r == x && q < n {
      DivMod(j, stride, q, r);
      ColumnHit(s, spec, stride, n, x, vals, j, q);
    } else {
      ColumnMissed(s, stride, n, x, vals, j);
    }
  }

  lemma DivMod(j: nat, stride: nat, q: nat, r: nat)
    requires stride > 0 && q == j / stride && r == j % stride
    ensures j == q * stride + r
  {
  }

  lemma ColumnMissed(s: seq<int>, stride: nat, n: nat, x: nat, vals: seq<int>, j: nat)
    requires Holds(stride, n, |s|) && x < n && |vals| == n && LineIn(x, stride, n, |s|) && j < |s|
    requires !(j % stride == x && j / stride < n)
    ensures Written(s, x, stride, vals, n)[j] == s[j]
  {
    NotInColumn(stride, n, |s|, x, j);
    WrittenMiss(s, x, stride, vals, n, j);
  }

  lemma ColumnHit(s: seq<int>, spec: seq<int>, stride: nat, n: nat, x: nat, vals: seq<int>, j: nat, r: nat)
    requires Holds(stride, n, |s|) && IsTable(spec, n) && x < n && vals == Column(spec, n, x)
    requires LineIn(x, stride, n, |s|) && j < |s| && r < n && j == r * stride + x
    ensures Written(s, x, stride, vals, n)[j] == At(spec, n, r, x)
  {
    assert Place(x, stride, r) == j;
    WrittenHit(s, x, stride, vals, n, r);
  }

  lemma NotInColumn(stride: nat, n: nat, len: nat, x: nat, j: nat)
    requires Holds(stride, n, len) && x < n && !(j % stride == x && j / stride < n)
    ensures forall i: nat :: i < n ==> Place(x, stride, i) != j
  {
    forall i: nat | i < n
      ensures Place(x, stride, i) != j
    {
      InBuffer(stride, n, len, i, x);
      assert Place(x, stride, i) == i * stride + x;
    }
  }

  lemma PutNothing(before: seq<int>, spec: seq<int>, stride: nat, n: nat)
    requires stride > 0 && IsTable(spec, n)
    ensures Put(before, before, spec, stride, n, 0, n) && Put(before, before, spec, stride, n, n, 0)
  {
    forall j | 0 <= j < |before|
      ensures PutAt(before, spec, stride, n, 0, n, j) == before[j] == PutAt(before, spec, stride, n, n, 0, j)
    {
      assert j / stride >= 0 && j % stride >= 0;
    }
  }

  // ---- Passes ----

  method RowPass(src: seq<i16>, srcStride: nat, dst: array<i16>, dstStride: nat, n: nat, cosTable: seq<int>)
    requires IsTable(cosTable, n) && Holds(srcStride, n, |src|) && Holds(dstStride, n, dst.Length)
    modifies dst
    ensures Put(old(dst[..]), dst[..], ForwardRows(cosTable, n, BlockOf(src, srcStride, n)), dstStride, n, n, n)
  {
    ghost var b, before := BlockOf(src, srcStride, n), dst[..];
    ghost var spec := ForwardRows(cosTable, n, b);
    PutNothing(before, spec, dstStride, n);
    for y := 0 to n
      invariant Put(before, dst[..], spec, dstStride, n, y, n)
    {
      RowIsLine(src, srcStride, n, y);
      RowPassRow(cosTable, n, b, y);
      RowWritten(before, dst[..], spec, dstStride, n, y, Row(spec, n, y));
      Dct1D(src, y * srcStride, 1, dst, y * dstStride, 1, n, cosTable);
    }
  }

  method ColumnPass(src: seq<i16>, srcStride: nat, dst: array<i16>, dstStride: nat, n: nat, cosTable: seq<int>)
    requires IsTable(cosTable, n) && Holds(srcStride, n, |src|) && Holds(dstStride, n, dst.Length)
    modifies dst
    ensures Put(old(dst[..]), dst[..], ForwardColumns(cosTable, n, BlockOf(src, srcStride, n)), dstStride, n, n, n)
  {
    ghost var b, before := BlockOf(src, srcStride, n), dst[..];
    ghost var spec := ForwardColumns(cosTable, n, b);
    PutNothing(before, spec, dstStride, n);
    for x := 0 to n
      invariant Put(before, dst[..], spec, dstStride, n, n, x)
    {
      ColumnIsLine(src, srcStride, n, x);
      ColumnPassColumn(cosTable, n, b, x);
      ColumnWritten(before, dst[..], spec, dstStride, n, x, Column(spec, n, x));
      Dct1D(src, x, srcStride, dst, x, dstStride, n, cosTable);
    }
  }

  method InverseColumnPass(src: seq<i16>, srcStride: nat, dst: array<i16>, dstStride: nat, n: nat, cosTable: seq<int>)
    requires IsTable(cosTable, n) && Holds(srcStride, n, |src|) && Holds(dstStride, n, dst.Length)
    modifies dst
    ensures Put(old(dst[..]), dst[..], InverseColumns(cosTable, n, BlockOf(src, srcStride, n)), dstStride, n, n, n)
  {
    ghost var b, before := BlockOf(src, srcStride, n), dst[..];
    ghost var spec := InverseColumns(cosTable, n, b);
    PutNothing(before, spec, dstStride, n);
    for x := 0 to n
      invariant Put(before, dst[..], spec, dstStride, n, n, x)
    {
      ColumnIsLine(src, srcStride, n, x);
      ColumnPassColumn(cosTable, n, b, x);
      ColumnWritten(before, dst[..], spec, dstStride, n, x, Column(spec, n, x));
      Idct1D(src, x, srcStride, dst, x, dstStride, n, cosTable);
    }
  }

  method InverseRowPass(src: seq<i16>, srcStride: nat, dst: array<i16>, dstStride: nat, n: nat, cosTable: seq<int>)
    requires IsTable(cosTable, n) && Holds(srcStride, n, |src|) && Holds(dstStride, n, dst.Length)
    modifies dst
    ensures Put(old(dst[..]), dst[..], InverseRows(cosTable, n, BlockOf(src, srcStride, n)), dstStride, n, n, n)
  {
    ghost var b, before := BlockOf(src, srcStride, n), dst[..];
    ghost var spec := InverseRows(cosTable, n, b);
    PutNothing(before, spec, dstStride, n);
    for y := 0 to n
      invariant Put(before, dst[..], spec, dstStride, n, y, n)
    {
      RowIsLine(src, srcStride, n, y);
      RowPassRow(cosTable, n, b, y);
      RowWritten(before, dst[..], spec, dstStride, n, y, Row(spec, n, y));
      Idct1D(src, y * srcStride, 1, dst, y * dstStride, 1, n, cosTable);
    }
  }

  /** A buffer that is nothing but the block. */
  lemma Whole(before: seq<int>, now: seq<int>, spec: seq<int>, n: nat)
    requires IsTable(spec, n) && |before| == n * n && Put(before, now, spec, n, n, n, n)
    ensures Holds(n, n, |now|) && now == spec && BlockOf(now, n, n) == spec
  {
    assert (n - 1) * n + n == n * n;
    forall j | 0 <= j < n * n
      ensures now[j] == spec[j] && BlockOf(now, n, n)[j] == now[j]
    {
      RowOf(n, n, j);
    }
  }

  method DctForward(src: seq<i16>, srcStride: nat, dst: array<i16>, dstStride: nat, blockSize: nat, cosTable: seq<int>)
    requires IsTable(cosTable, blockSize)
    requires Holds(srcStride, blockSize, |src|) && Holds(dstStride, blockSize, dst.Length)
    modifies dst
    ensures Put(old(dst[..]), dst[..], Forward(cosTable, blockSize, BlockOf(src, srcStride, blockSize)),
                dstStride, blockSize, blockSize, blockSize)
  {
    var n := blockSize;
    assert (n - 1) * n + n == n * n;
    var temp := new i16[n * n](_ => 0);
    ghost var zero := temp[..];
    RowPass(src, srcStride, temp, n, n, cosTable);
    Whole(zero, temp[..], ForwardRows(cosTable, n, BlockOf(src, srcStride, n)), n);
    ColumnPass(temp[..], n, dst, dstStride, n, cosTable);
  }

  method DctInverse(src: seq<i16>, srcStride: nat, dst: array<i16>, dstStride: nat, blockSize: nat, cosTable: seq<int>)
    requires IsTable(cosTable, blockSize)
    requires Holds(srcStride, blockSize, |src|) && Holds(dstStride, blockSize, dst.Length)
    modifies dst
    ensures Put(old(dst[..]), dst[..], Inverse(cosTable, blockSize, BlockOf(src, srcStride, blockSize)),
                dstStride, blockSize, blockSize, blockSize)
  {
    var n := blockSize;
    assert (n - 1) * n + n == n * n;
    var temp := new i16[n * n](_ => 0);
    ghost var zero := temp[..];
    InverseColumnPass(src, srcStride, temp, n, n, cosTable);
    Whole(zero, temp[..], InverseColumns(cosTable, n, BlockOf(src, srcStride, n)), n);
    InverseRowPass(temp[..], n, dst, dstStride, n, cosTable);
  }

  // ---- Quantisation in place ----

  /** What is in place j once the rows before y, and x samples of row y, are written. */
  ghost function PartAt(before: seq<int>, spec: seq<int>, stride: nat, n: nat, y: nat, x: nat, j: nat): int
    requires stride > 0 && IsTable(spec, n) && y <= n && x <= n && (y == n ==> x == 0) && j < |before|
  {
    if j % stride < n && (j / stride < y || (j / stride == y && j % stride < x))
    then At(spec, n, j / stride, j % stride)
    else before[j]
  }

  ghost predicate Part(before: seq<int>, now: seq<int>, spec: seq<int>, stride: nat, n: nat, y: nat, x: nat)
    requires stride > 0 && IsTable(spec, n) && y <= n && x <= n && (y == n ==> x == 0)
  {
    now == PartIn(before, spec, stride, n, y, x)
  }

  ghost function PartIn(before: seq<int>, spec: seq<int>, stride: nat, n: nat, y: nat, x: nat): (r: seq<int>)
    requires stride > 0 && IsTable(spec, n) && y <= n && x <= n && (y == n ==> x == 0)
    ensures |r| == |before|
  {
    seq(|before|, j requires 0 <= j < |before| => PartAt(before, spec, stride, n, y, x, j))
  }

  lemma PartNothing(before: seq<int>, spec: seq<int>, stride: nat, n: nat)
    requires stride > 0 && IsTable(spec, n)
    ensures Part(before, before, spec, stride, n, 0, 0)
  {
    forall j | 0 <= j < |before|
      ensures PartAt(before, spec, stride, n, 0, 0, j) == before[j]
    {
      assert j / stride >= 0 && j % stride >= 0;
    }
  }

  lemma PartStep(before: seq<int>, now: seq<int>, spec: seq<int>, stride: nat, n: nat, y: nat, x: nat, at: nat)
    requires Holds(stride, n, |before|) && IsTable(spec, n) && y < n && x < n && at == y * stride + x
    requires Part(before, now, spec, stride, n, y, x)
    ensures at < |now| && now[at] == before[at] == At(BlockOf(before, stride, n), n, y, x)
    ensures Part(before, now[at := At(spec, n, y, x)], spec, stride, n, y, x + 1)
  {
    InBuffer(stride, n, |before|, y, x);
    BlockAt(before, stride, n, y, x);
    var next := now[at := At(spec, n, y, x)];
    forall j | 0 <= j < |before|
      ensures next[j] == PartAt(before, spec, stride, n, y, x + 1, j)
    {
      PlaceIs(at, stride, y, x, j);
      OnePartMore(before, spec, stride, n, y, x, x + 1, j);
    }
  }

  lemma PlaceIs(at: nat, stride: nat, y: nat, x: nat, j: nat)
    requires stride > 0 && at == y * stride + x && at / stride == y && at % stride == x
    ensures j / stride == y && j % stride == x <==> j == at
  {
    DivMod(j, stride, j / stride, j % stride);
  }

  lemma OnePartMore(before: seq<int>, spec: seq<int>, stride: nat, n: nat, y: nat, x: nat, next: nat, j: nat)
    requires stride > 0 && IsTable(spec, n) && y < n && x < n && next == x + 1 && j < |before|
    ensures j / stride == y && j % stride == x ==>
      PartAt(before, spec, stride, n, y, next, j) == At(spec, n, y, x)
    ensures !(j / stride == y && j % stride == x) ==>
      PartAt(before, spec, stride, n, y, next, j) == PartAt(before, spec, stride, n, y, x, j)
  {
  }

  lemma PartRow(before: seq<int>, now: seq<int>, spec: seq<int>, stride: nat, n: nat, y: nat)
    requires Holds(stride, n, |before|) && IsTable(spec, n) && y < n && Part(before, now, spec, stride, n, y, n)
    ensures Part(before, now, spec, stride, n, y + 1, 0)
  {
  }

  lemma PartDone(before: seq<int>, now: seq<int>, spec: seq<int>, stride: nat, n: nat)
    requires Holds(stride, n, |before|) && IsTable(spec, n) && Part(before, now, spec, stride, n, n, 0)
    ensures Put(before, now, spec, stride, n, n, n)
  {
  }

  lemma QuantisedAt(b: seq<int>, n: nat, qp: nat, y: nat, x: nat)
    requires IsTable(b, n) && y < n && x < n
    ensures At(Quantised(b, n, qp), n, y, x) == ToI16(TruncDiv(At(b, n, y, x), StepAt(qp, x, y)))
    ensures At(Dequantised(b, n, qp), n, y, x) == ToI16(At(b, n, y, x) * StepAt(qp, x, y))
  {
    Position(n, n, y, x);
  }

  /** One coefficient, rounded toward zero. */
  method QuantizeAt(coeffs: array<i16>, at: nat, qStep: nat)
    requires at < coeffs.Length && qStep > 0
    modifies coeffs
    ensures coeffs[..] == old(coeffs[..])[at := ToI16(TruncDiv(old(coeffs[at]), qStep))]
  {
    var val: int := coeffs[at];
    if val >= 0 {
      coeffs[at] := ToI16(val / qStep);
    } else {
      coeffs[at] := ToI16(-(-val / qStep));
    }
  }

  method DequantizeAt(coeffs: array<i16>, at: nat, qStep: nat)
    requires at < coeffs.Length
    modifies coeffs
    ensures coeffs[..] == old(coeffs[..])[at := ToI16(old(coeffs[at]) * qStep)]
  {
    var val: int := coeffs[at];
    coeffs[at] := ToI16(val * qStep);
  }

  method Quantize(coeffs: array<i16>, stride: nat, blockSize: nat, qp: nat)
    requires Holds(stride, blockSize, coeffs.Length)
    modifies coeffs
    ensures Put(old(coeffs[..]), coeffs[..], Quantised(BlockOf(old(coeffs[..]), stride, blockSize), blockSize, qp),
                stride, blockSize, blockSize, blockSize)
  {
    ghost var before, n := coeffs[..], blockSize;
    ghost var b := BlockOf(before, stride, n);
    ghost var spec := Quantised(b, n, qp);
    var step := Max(1, qp / 4);
    PartNothing(before, spec, stride, n);
    for y := 0 to blockSize
      invariant Part(before, coeffs[..], spec, stride, n, y, 0)
    {
      for x := 0 to blockSize
        invariant Part(before, coeffs[..], spec, stride, n, y, x)
      {
        ghost var now: seq<int> := coeffs[..];
        PartStep(before, now, spec, stride, n, y, x, y * stride + x);
        QuantisedAt(b, n, qp, y, x);
        var weight := 1 + (x + y) / 2;
        var qStep := step * weight;
        assert qStep == StepAt(qp, x, y);
        QuantizeAt(coeffs, y * stride + x, qStep);
        assert coeffs[..] == now[y * stride + x := At(spec, n, y, x)];
      }
      PartRow(before, coeffs[..], spec, stride, n, y);
    }
    PartDone(before, coeffs[..], spec, stride, n);
  }

  method Dequantize(coeffs: array<i16>, stride: nat, blockSize: nat, qp: nat)
    requires Holds(stride, blockSize, coeffs.Length)
    modifies coeffs
    ensures Put(old(coeffs[..]), coeffs[..], Dequantised(BlockOf(old(coeffs[..]), stride, blockSize), blockSize, qp),
                stride, blockSize, blockSize, blockSize)
  {
    ghost var before, n := coeffs[..], blockSize;
    ghost var b := BlockOf(before, stride, n);
    ghost var spec := Dequantised(b, n, qp);
    var step := Max(1, qp / 4);
    PartNothing(before, spec, stride, n);
    for y := 0 to blockSize
      invariant Part(before, coeffs[..], spec, stride, n, y, 0)
    {
      for x := 0 to blockSize
        invariant Part(before, coeffs[..], spec, stride, n, y, x)
      {
        ghost var now: seq<int> := coeffs[..];
        PartStep(before, now, spec, stride, n, y, x, y * stride + x);
        QuantisedAt(b, n, qp, y, x);
        var weight := 1 + (x + y) / 2;
        var qStep := step * weight;
        assert qStep == StepAt(qp, x, y);
        DequantizeAt(coeffs, y * stride + x, qStep);
        assert coeffs[..] == now[y * stride + x := At(spec, n, y, x)];
      }
      PartRow(before, coeffs[..], spec, stride, n, y);
    }
    PartDone(before, coeffs[..], spec, stride, n);
  }
}
