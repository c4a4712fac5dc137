/** Quantised prediction residuals: src/codec/omni/tile_encoder.cpp:294-306 and
    src/codec/omni/tile_decoder.cpp:262-273.  The encoder predicts from the original plane,
    not from what the decoder will have, so in LEFT_PIXEL mode the errors add up. */
module NearLossless {
  import opened Words
  import opened Arithmetic
  import opened Predict

  /** Round-to-nearest division by the step, symmetric about zero. */
  function Quantise(v: int, q: nat): int
    requires q > 0
  {
    if v >= 0 then (v + q / 2) / q else -((-v + q / 2) / q)
  }

  function Quantised(res: seq<int>, q: nat): (r: seq<i16>)
    requires q > 0
    ensures |r| == |res|
  {
    seq(|res|, i requires 0 <= i < |res| => ToI16(Quantise(res[i], q)))
  }

  function Dequantised(res: seq<int>, q: nat): (r: seq<i16>)
    ensures |r| == |res|
  {
    seq(|res|, i requires 0 <= i < |res| => ToI16(res[i] * q))
  }

  /** What the decoder makes of one plane. */
  function NearPlane(m: PredMode, nb: Neighbours, w: nat, h: nat, src: seq<int>, q: nat): (out: seq<i16>)
    requires Fit(nb, w, h) && |src| == w * h && q > 0
    ensures |out| == w * h
  {
    Restored(m, nb, w, h, Dequantised(Quantised(Residual(m, nb, w, h, src), q), q))
  }

  lemma NonNegativeStep(v: nat, q: nat)
    requires q > 0
    ensures Close((v + q / 2) / q * q, v, q / 2)
  {
    var n := v + q / 2;
    assert n / q * q + n % q == n;
  }

  lemma QuantiseClose(v: int, q: nat)
    requires q > 0
    ensures Close(Quantise(v, q) * q, v, q / 2)
  {
    if v >= 0 {
      NonNegativeStep(v, q);
    } else {
      NonNegativeStep(-v, q);
      assert Quantise(v, q) * q == -((-v + q / 2) / q * q);
    }
  }

  /** The quotient nearest to v / q: half a step and more is rounded away from zero, with half an odd
      step cut to whole units; negative values as positive ones. */
  lemma QuantiseNearest(v: nat, q: nat, k: int)
    requires q > 0 && k == Quantise(v, q)
    ensures q * k <= v + q / 2 < q * k + q
    ensures Quantise(-(v as int), q) == -k
  {
    var n := v + q / 2;
    assert n / q * q + n % q == n;
  }

  lemma StepSmall(n: nat, q: nat, m: nat)
    requires q > 0 && m == (n + q / 2) / q
    ensures m <= n
  {
    var mq, nq := m * q, n * q;
    assert mq <= n + q / 2;
    assert nq >= n by { MulMonotone(1, q, n); }
    if m >= n + 1 {
      MulMonotone(n + 1, m, q);
    }
  }

  lemma QuantiseSmall(v: int, q: nat)
    requires q > 0
    ensures Abs(Quantise(v, q)) <= Abs(v)
  {
    StepSmall(Abs(v), q, (Abs(v) + q / 2) / q);
  }

  lemma NoWrap(v: int)
    requires -0x8000 <= v < 0x8000
    ensures ToI16(v) == v
  {
  }

  /** One sample through quantisation and back, when nothing leaves 16 bits. */
  lemma SampleClose(v: int, q: nat)
    requires 1 <= q <= 255 && Abs(v) <= 0x4000
    ensures Close(ToI16(ToI16(Quantise(v, q)) * q), v, q / 2)
  {
    QuantiseClose(v, q);
    QuantiseSmall(v, q);
    NoWrap(Quantise(v, q));
    NoWrap(Quantise(v, q) * q);
  }

  // ---- The bound ----

  /** Samples of a colour plane are nine-bit signed values. */

  /** x + y + 1 for the sample at position i. */
  function Steps(i: nat, w: nat): nat
    requires w > 0
  {
    i % w + i / w + 1
  }

  lemma StepsFromNeighbour(i: nat, w: nat)
    requires w > 0 && i > 0
    ensures i % w > 0 ==> Steps(i - 1, w) == Steps(i, w) - 1
    ensures i % w == 0 ==> i >= w && Steps(i - w, w) == Steps(i, w) - 1
  {
    var y, x := i / w, i % w;
    assert i == y * w + x;
    if x > 0 {
      DivUnique(i - 1, w, y, x - 1);
    } else {
      assert y > 0;
      MulMonotone(1, y, w);
      assert i - w == (y - 1) * w;
      DivUnique(i - w, w, y - 1, 0);
    }
  }

  lemma StepsBound(i: nat, w: nat, h: nat)
    requires w <= 64 && h <= 64 && i < w * h
    ensures w > 0 && Steps(i, w) <= 127
  {
    RowOf(w, h, i);
  }

  /** n * e, one e at a time. */
  function Times(n: nat, e: nat): nat { if n == 0 then 0 else Times(n - 1, e) + e }

  lemma {:induction false} TimesIsProduct(n: nat, e: nat)
    ensures Times(n, e) == n * e
  {
    if n > 0 {
      TimesIsProduct(n - 1, e);
    }
  }

  /** The errors along the scan: each sample adds at most floor(q/2) to its predictor's. */
  lemma {:induction false} LeftDrift(src: seq<int>, deq: seq<int>, w: nat, h: nat, e: nat, n: nat)
    requires 1 <= w <= 64 && h <= 64 && e <= 127
    requires |src| == |deq| == w * h && Within(src, 255) && n <= |src|
    requires forall i :: 0 <= i < |src| ==> Close(deq[i], src[i] - Neighbour(src, w, i), e)
    ensures Drifted(LeftRestored(deq, w, n), src, w, e)
  {
    if n > 0 {
      LeftDrift(src, deq, w, h, e, n - 1);
      DriftStep(src, deq[n - 1], w, h, e, n - 1, LeftRestored(deq, w, n - 1));
    }
  }

  ghost predicate Drifted(out: seq<int>, src: seq<int>, w: nat, e: nat)
    requires w > 0
  {
    |out| <= |src| && forall i :: 0 <= i < |out| ==> Close(out[i], src[i], Times(Steps(i, w), e))
  }

  lemma AddErrors(d: int, p: int, p0: int, v: int, s: nat, e: nat)
    requires 1 <= s <= 127 && e <= 127 && -255 <= v <= 255
    requires Close(d, v - p0, e) && Close(p, p0, Times(s - 1, e))
    ensures Close(ToI16(d + p), v, Times(s, e))
  {
    assert Close(d + p, v, Times(s, e));
    TimesIsProduct(s, e);
    MulMonotone(s, 127, e);
    NoWrap(d + p);
  }

  lemma DriftStep(src: seq<int>, d: int, w: nat, h: nat, e: nat, k: nat, out: seq<int>)
    requires 1 <= w <= 64 && h <= 64 && e <= 127
    requires |src| == w * h && Within(src, 255) && |out| == k < |src|
    requires Close(d, src[k] - Neighbour(src, w, k), e) && Drifted(out, src, w, e)
    ensures Drifted(out + [ToI16(d + Neighbour(out, w, k))], src, w, e)
  {
    var p, p0 := Neighbour(out, w, k), Neighbour(src, w, k);
    StepsBound(k, w, h);
    PredictorDrift(src, w, e, k, out);
    AddErrors(d, p, p0, src[k], Steps(k, w), e);
    DriftedAppend(src, w, e, out, ToI16(d + p));
  }

  lemma DriftedAppend(src: seq<int>, w: nat, e: nat, out: seq<int>, v: int)
    requires w > 0 && |out| < |src| && Drifted(out, src, w, e)
    requires Close(v, src[|out|], Times(Steps(|out|, w), e))
    ensures Drifted(out + [v], src, w, e)
  {
  }

  lemma PredictorDrift(src: seq<int>, w: nat, e: nat, k: nat, out: seq<int>)
    requires w > 0 && |out| == k < |src| && Drifted(out, src, w, e)
    ensures Close(Neighbour(out, w, k), Neighbour(src, w, k), Times(Steps(k, w) - 1, e))
  {
    if k > 0 {
      StepsFromNeighbour(k, w);
      var i := if k % w > 0 then k - 1 else k - w;
      assert Close(out[i], src[i], Times(Steps(i, w), e));
    }
  }

  lemma LeftResidualSmall(src: seq<int>, w: nat, i: nat)
    requires w > 0 && i < |src| && Within(src, 255)
    ensures LeftResidual(src, w)[i] == src[i] - Neighbour(src, w, i)
    ensures Abs(LeftResidual(src, w)[i]) <= 510
  {
  }

  /** Main result for LEFT_PIXEL: the sample at (x, y) is off by at most (x + y + 1) * floor(q/2). */
  lemma NearLosslessDrift(w: nat, h: nat, src: seq<int>, nb: Neighbours, q: nat, i: nat)
    requires w <= 64 && h <= 64 && 1 <= q <= 255 && Fit(nb, w, h)
    requires |src| == w * h && Within(src, 255) && i < w * h
    ensures w > 0 && Close(NearPlane(LEFT_PIXEL, nb, w, h, src, q)[i], src[i], (i % w + i / w + 1) * (q / 2))
  {
    LeftPlaneDrift(w, h, src, nb, q);
    TimesIsProduct(Steps(i, w), q / 2);
    assert Close(NearPlane(LEFT_PIXEL, nb, w, h, src, q)[i], src[i], Times(Steps(i, w), q / 2));
  }

  lemma LeftPlaneDrift(w: nat, h: nat, src: seq<int>, nb: Neighbours, q: nat)
    requires w <= 64 && h <= 64 && 1 <= q <= 255 && Fit(nb, w, h)
    requires |src| == w * h && Within(src, 255)
    ensures w > 0 ==> Drifted(NearPlane(LEFT_PIXEL, nb, w, h, src, q), src, w, q / 2)
  {
    if w > 0 {
      var res := LeftResidual(src, w);
      var deq := Dequantised(Quantised(res, q), q);
      forall i | 0 <= i < |src|
        ensures Close(deq[i], src[i] - Neighbour(src, w, i), q / 2)
      {
        LeftResidualSmall(src, w, i);
        SampleClose(res[i], q);
      }
      LeftDrift(src, deq, w, h, q / 2, w * h);
    }
  }

  // ---- The other modes ----

  ghost predicate NineBitNeighbours(nb: Neighbours)
  {
    && (nb.top.Some? ==> Within(nb.top.value, 255)) && (nb.left.Some? ==> Within(nb.left.value, 255))
    && -255 <= nb.topLeft <= 255
  }

  lemma {:induction false} SumBounds(s: seq<int>)
    requires Within(s, 255)
    ensures -255 * |s| <= SumOf(s) <= 255 * |s|
  {
    if s != [] {
      SumBounds(s[..|s| - 1]);
    }
  }

  lemma DivBound(n: nat, b: nat, k: nat)
    requires b > 0 && n <= k * b
    ensures n / b <= k
  {
    var d := n / b;
    assert d * b <= n;
    MulOrder(d, k, b);
  }

  lemma TruncDivBounds(a: int, b: int, k: nat)
    requires b > 0 && Abs(a) <= k * b
    ensures Abs(TruncDiv(a, b)) <= k
  {
    DivBound(Abs(a), b, k);
  }

  lemma WeightedBound(a: nat, b: nat, c: nat, u: int, v: int, t: int)
    requires -255 <= u <= 255 && -255 <= v <= 255 && -255 <= t <= 255
    ensures -255 * (a + b + c) <= a * u + b * v + c * t <= 255 * (a + b + c)
  {
    MulMonotone(u, 255, a); MulMonotone(v, 255, b); MulMonotone(t, 255, c);
    MulMonotone(-255, u, a); MulMonotone(-255, v, b); MulMonotone(-255, t, c);
  }

  lemma DcSmall(nb: Neighbours)
    requires NineBitNeighbours(nb)
    ensures -255 <= DcValue(nb) <= 255
  {
    var top := if nb.top.Some? then nb.top.value else [];
    var left := if nb.left.Some? then nb.left.value else [];
    SumBounds(top);
    SumBounds(left);
    if |top| + |left| > 0 {
      AverageSmall(SumOf(top) + SumOf(left), |top| + |left|);
    }
  }

  lemma AverageSmall(sum: int, n: nat)
    requires n > 0 && -255 * n <= sum <= 255 * n
    ensures -255 <= ToI16(TruncDiv(sum, n)) <= 255
  {
    TruncDivBounds(sum, n, 255);
    NoWrap(TruncDiv(sum, n));
  }

  lemma PlanarSmall(nb: Neighbours, w: nat, h: nat, x: nat, y: nat)
    requires Fit(nb, w, h) && NineBitNeighbours(nb) && x < w && y < h
    ensures -512 <= PlanarValue(nb, w, h, x, y) <= 512
  {
    var topVal := if nb.top.Some? then nb.top.value[x] else 0;
    var leftVal := if nb.left.Some? then nb.left.value[y] else 0;
    var num := (h - 1 - y) * topVal + (w - 1 - x) * leftVal + (y + x) * nb.topLeft;
    WeightedBound(h - 1 - y, w - 1 - x, y + x, topVal, leftVal, nb.topLeft);
    assert -(255 * (w + h - 2)) <= num <= 255 * (w + h - 2);
    RoundedBound(num, w + h);
  }

  lemma RoundedBound(num: int, n: nat)
    requires n >= 2 && Abs(num) <= 255 * (n - 2)
    ensures -512 <= ToI16(TruncDiv(num + n / 2, Max(n - 2, 1))) <= 512
  {
    TruncDivBounds(num + n / 2, Max(n - 2, 1), 512);
  }

  /** With nine-bit neighbours every prediction is at most 512 in size. */
  lemma PredictionSmall(m: PredMode, nb: Neighbours, w: nat, h: nat, x: nat, y: nat)
    requires m != LEFT_PIXEL && Fit(nb, w, h) && NineBitNeighbours(nb) && x < w && y < h
    ensures -512 <= PredictedAt(m, nb, w, h, x, y) <= 512
  {
    match m
    case DC => DcSmall(nb);
    case PLANAR => PlanarSmall(nb, w, h, x, y);
    case HORIZONTAL =>
    case VERTICAL =>
  }

  lemma FlatSample(v: int, p: int, q: nat)
    requires -255 <= v <= 255 && -512 <= p <= 512 && 1 <= q <= 255
    ensures Close(ToI16(ToI16(ToI16(Quantise(ToI16(v - p), q)) * q) + p), v, q / 2)
  {
    var r := v - p;
    NoWrap(r);
    SampleClose(r, q);
    var d := ToI16(ToI16(Quantise(r, q)) * q);
    assert Close(d + p, v, q / 2);
    NoWrap(d + p);
  }

  /** Main result for the other modes: every sample is off by at most floor(q/2). */
  lemma NearLosslessFlat(m: PredMode, w: nat, h: nat, src: seq<int>, nb: Neighbours, q: nat)
    requires m != LEFT_PIXEL && 1 <= q <= 255 && Fit(nb, w, h) && NineBitNeighbours(nb)
    requires |src| == w * h && Within(src, 255)
    ensures forall i :: 0 <= i < w * h ==> Close(NearPlane(m, nb, w, h, src, q)[i], src[i], q / 2)
  {
    forall i | 0 <= i < w * h
      ensures Close(NearPlane(m, nb, w, h, src, q)[i], src[i], q / 2)
    {
      FlatAt(m, w, h, src, nb, q, i);
    }
  }

  lemma FlatAt(m: PredMode, w: nat, h: nat, src: seq<int>, nb: Neighbours, q: nat, i: nat)
    requires m != LEFT_PIXEL && 1 <= q <= 255 && Fit(nb, w, h) && NineBitNeighbours(nb)
    requires |src| == w * h && Within(src, 255) && i < w * h
    ensures Close(NearPlane(m, nb, w, h, src, q)[i], src[i], q / 2)
  {
    RowOf(w, h, i);
    var p := PredictedAt(m, nb, w, h, i % w, i / w);
    PredictionSmall(m, nb, w, h, i % w, i / w);
    FlatSample(src[i], p, q);
    var res := Residual(m, nb, w, h, src);
    assert res[i] == ToI16(src[i] - p);
    assert Dequantised(Quantised(res, q), q)[i] == ToI16(ToI16(Quantise(res[i], q)) * q);
  }

  // ---- The promised bound, and exactly when it holds ----

  /** The encoder's step for a configured maximum error. */
  function StepOf(maxError: nat): nat { Max(1, maxError) }

  /** What encodeNearLossless promises of a plane it codes alone: no sample is off by more
      than the configured maximum. */
  ghost predicate PlaneKeepsPromise(w: nat, h: nat, src: seq<int>, maxError: nat)
    requires |src| == w * h
  {
    var m := SelectMode(NO_NEIGHBOURS, w, h, src);
    forall i :: 0 <= i < w * h ==>
      Close(NearPlane(m, NO_NEIGHBOURS, w, h, src, StepOf(maxError))[i], src[i], maxError)
  }

  ghost predicate KeepsPromise(maxError: nat)
  {
    forall w: nat, h: nat, src: seq<int> | w <= 64 && h <= 64 && |src| == w * h && Within(src, 255)
      :: PlaneKeepsPromise(w, h, src, maxError)
  }

  lemma StepOneExact(w: nat, h: nat, src: seq<int>, maxError: nat)
    requires w <= 64 && h <= 64 && |src| == w * h && Within(src, 255) && maxError <= 1
    ensures PlaneKeepsPromise(w, h, src, maxError)
  {
    var m := SelectMode(NO_NEIGHBOURS, w, h, src);
    forall i | 0 <= i < w * h
      ensures Close(NearPlane(m, NO_NEIGHBOURS, w, h, src, 1)[i], src[i], 0)
    {
      if m == LEFT_PIXEL {
        NearLosslessDrift(w, h, src, NO_NEIGHBOURS, 1, i);
      } else {
        FlatAt(m, w, h, src, NO_NEIGHBOURS, 1, i);
      }
    }
  }

  /** A row of four samples on which the errors of step q add up past q. */
  function DriftingRow(q: nat): (s: seq<int>)
    requires 2 <= q <= 255
    ensures |s| == 4 * 1 && Within(s, 255)
  {
    var m := q - q / 2;
    if q <= 3 then [m, 2 * m, 3 * m, 4 * m] else [m, 1, m + 1, m + 1]
  }

  function Deltas(s: seq<int>): seq<int>
    requires |s| == 4
  {
    [s[0], s[1] - s[0], s[2] - s[1], s[3] - s[2]]
  }

  lemma SumAbsFour(s: seq<int>)
    requires |s| == 4
    ensures SumAbs(s) == Abs(s[0]) + Abs(s[1]) + Abs(s[2]) + Abs(s[3])
  {
    assert s[..3][..2] == s[..2] && s[..2][..1] == s[..1] && s[..1][..0] == [];
    assert SumAbs(s[..1]) == Abs(s[0]);
    assert SumAbs(s[..2]) == SumAbs(s[..1]) + Abs(s[1]);
    assert SumAbs(s[..3]) == SumAbs(s[..2]) + Abs(s[2]);
  }

  lemma RowNeighbours(s: seq<int>)
    requires |s| == 4
    ensures Neighbour(s, 4, 0) == 0 && Neighbour(s, 4, 1) == s[0] && Neighbour(s, 4, 2) == s[1]
    ensures Neighbour(s, 4, 3) == s[2]
  {
  }

  lemma RowChoosesLeft(q: nat)
    requires 2 <= q <= 255
    ensures SelectMode(NO_NEIGHBOURS, 4, 1, DriftingRow(q)) == LEFT_PIXEL
    ensures LeftResidual(DriftingRow(q), 4) == Deltas(DriftingRow(q))
  {
    var s := DriftingRow(q);
    RowNeighbours(s);
    var left, flat := LeftResidual(s, 4), Difference(s, Predicted(DC, NO_NEIGHBOURS, 4, 1));
    assert left == Deltas(s);
    SelectModeAlone(4, 1, s);
    assert flat == s;
    SumAbsFour(left);
    SumAbsFour(s);
  }

  lemma QuantiseUp(q: nat)
    requires 2 <= q <= 255
    ensures Quantise(q - q / 2, q) == 1
  {
    DivUnique(q, q, 1, 0);
  }

  lemma QuantiseDown(q: nat, v: nat)
    requires 2 <= q <= 255 && v + q / 2 < q
    ensures Quantise(v, q) == 0 && Quantise(0 - v, q) == 0
  {
    DivUnique(v + q / 2, q, 0, v + q / 2);
  }

  lemma SentAndBack(v: int, q: nat, r: int)
    requires 2 <= q <= 255 && Quantise(v, q) == r && 0 <= r <= 1
    ensures ToI16(ToI16(Quantise(v, q)) * q) == if r == 0 then 0 else q
  {
  }

  lemma FourDequantised(d: seq<int>, q: nat, r: seq<int>)
    requires |d| == |r| == 4 && 2 <= q <= 255
    requires forall i :: 0 <= i < 4 ==> Quantise(d[i], q) == r[i] && 0 <= r[i] <= 1
    ensures forall i :: 0 <= i < 4 ==> Dequantised(Quantised(d, q), q)[i] == if r[i] == 0 then 0 else q
  {
    forall i | 0 <= i < 4
      ensures Dequantised(Quantised(d, q), q)[i] == if r[i] == 0 then 0 else q
    {
      SentAndBack(d[i], q, r[i]);
    }
  }

  /** The quantised and rescaled differences of the row. */
  lemma RowDequantised(q: nat)
    requires 2 <= q <= 255
    ensures Dequantised(Quantised(Deltas(DriftingRow(q)), q), q)
         == if q <= 3 then [q, q, q, q] else [q, 0, q, 0]
  {
    var m := q - q / 2;
    QuantiseUp(q);
    if q <= 3 {
      FourDequantised([m, m, m, m], q, [1, 1, 1, 1]);
    } else {
      QuantiseDown(q, m - 1);
      QuantiseDown(q, 0);
      FourDequantised([m, 0 - (m - 1), m, 0], q, [1, 0, 1, 0]);
    }
    RowDeltas(q);
  }

  lemma RowDeltas(q: nat)
    requires 2 <= q <= 255
    ensures var m := q - q / 2;
      Deltas(DriftingRow(q)) == if q <= 3 then [m, m, m, m] else [m, 0 - (m - 1), m, 0]
  {
  }

  lemma {:induction false} RowRestored(d: seq<int>, n: nat)
    requires |d| == 4 && 1 <= n <= 4 && forall i :: 0 <= i < 4 ==> 0 <= d[i] <= 255
    ensures LeftRestored(d, 4, n)[n - 1] == SumOf(d[..n]) <= 255 * n
  {
    assert d[..n][..n - 1] == d[..n - 1];
    if n > 1 {
      RowRestored(d, n - 1);
    } else {
      assert SumOf(d[..0]) == 0;
    }
    NoWrap(SumOf(d[..n]));
  }

  lemma SumFour(s: seq<int>)
    requires |s| == 4
    ensures SumOf(s[..4]) == s[0] + s[1] + s[2] + s[3]
  {
    assert s[..4] == s && s[..3][..2] == s[..2] && s[..2][..1] == s[..1] && s[..1][..0] == [];
    assert SumOf(s[..1]) == s[0];
    assert SumOf(s[..2]) == SumOf(s[..1]) + s[1];
    assert SumOf(s[..3]) == SumOf(s[..2]) + s[2];
  }

  lemma PromiseBroken(q: nat)
    requires 2 <= q <= 255
    ensures !PlaneKeepsPromise(4, 1, DriftingRow(q), q)
  {
    var s := DriftingRow(q);
    RowChoosesLeft(q);
    RowDequantised(q);
    var d := Dequantised(Quantised(Deltas(s), q), q);
    RowRestored(d, 4);
    SumFour(d);
    assert NearPlane(LEFT_PIXEL, NO_NEIGHBOURS, 4, 1, s, q) == LeftRestored(d, 4, 4);
    assert !Close(LeftRestored(d, 4, 4)[3], s[3], q);
  }

  /** The per-component bound holds for every plane exactly when the configured maximum is
      at most 1, in which case near-lossless coding is lossless.  The default, 2, breaks it. */
  lemma PromiseExactlyUpToOne(maxError: nat)
    requires maxError <= 255
    ensures KeepsPromise(maxError) <==> maxError <= 1
  {
    if maxError <= 1 {
      forall w: nat, h: nat, src: seq<int> | w <= 64 && h <= 64 && |src| == w * h && Within(src, 255)
        ensures PlaneKeepsPromise(w, h, src, maxError)
      {
        StepOneExact(w, h, src, maxError);
      }
    } else {
      PromiseBroken(maxError);
      assert |DriftingRow(maxError)| == 4 * 1;
    }
  }
}
