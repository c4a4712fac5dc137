/** Intra prediction of one 16-bit plane: src/core/simd_predict.cpp (the scalar forms),
    TileEncoder::selectPredMode / applyPrediction and TileDecoder::inversePrediction. */
module Predict {
  import opened Words
  import opened Arithmetic

  datatype PredMode = DC | HORIZONTAL | VERTICAL | PLANAR | LEFT_PIXEL

  function ModeCode(m: PredMode): u8
  {
    match m case DC => 0 case HORIZONTAL => 1 case VERTICAL => 2 case PLANAR => 3 case LEFT_PIXEL => 4
  }

  /** None for the codes 5 to 7, on which the decoder predicts from leftover scratch. */
  function ModeOf(code: u8): Option<PredMode>
  {
    if code == 0 then Some(DC) else if code == 1 then Some(HORIZONTAL) else if code == 2 then Some(VERTICAL)
    else if code == 3 then Some(PLANAR) else if code == 4 then Some(LEFT_PIXEL) else None
  }

  /** The pixels around a tile; either side may be missing. */
  datatype Neighbours = Neighbours(top: Option<seq<i16>>, left: Option<seq<i16>>, topLeft: i16)

  const NO_NEIGHBOURS := Neighbours(None, None, 0)

  ghost predicate Fit(nb: Neighbours, w: nat, h: nat)
  {
    && (nb.top.Some? ==> |nb.top.value| == w)
    && (nb.left.Some? ==> |nb.left.value| == h)
  }

  ghost predicate Is16(s: seq<int>) { forall i :: 0 <= i < |s| ==> -0x8000 <= s[i] < 0x8000 }

  // ---- The predictors that look at neighbours only ----

  function SumOf(s: seq<int>): int
  {
    if s == [] then 0 else SumOf(s[..|s| - 1]) + s[|s| - 1]
  }

  /** The average of the neighbours present, truncated toward zero; 0 without neighbours. */
  function DcValue(nb: Neighbours): i16
  {
    var top := if nb.top.Some? then nb.top.value else [];
    var left := if nb.left.Some? then nb.left.value else [];
    var count := |top| + |left|;
    if count > 0 then ToI16(TruncDiv(SumOf(top) + SumOf(left), count)) else 0
  }

  function PlanarValue(nb: Neighbours, w: nat, h: nat, x: nat, y: nat): i16
    requires Fit(nb, w, h) && x < w && y < h
  {
    var topVal := if nb.top.Some? then nb.top.value[x] else 0;
    var leftVal := if nb.left.Some? then nb.left.value[y] else 0;
    ToI16(TruncDiv((h - 1 - y) * topVal + (w - 1 - x) * leftVal + (y + x) * nb.topLeft + (w + h) / 2,
                   Max(w + h - 2, 1)))
  }

  function PredictedAt(m: PredMode, nb: Neighbours, w: nat, h: nat, x: nat, y: nat): i16
    requires m != LEFT_PIXEL && Fit(nb, w, h) && x < w && y < h
  {
    match m
    case DC => DcValue(nb)
    case HORIZONTAL => if nb.left.Some? then nb.left.value[y] else 0
    case VERTICAL => if nb.top.Some? then nb.top.value[x] else 0
    case PLANAR => PlanarValue(nb, w, h, x, y)
  }

  function Predicted(m: PredMode, nb: Neighbours, w: nat, h: nat): (p: seq<i16>)
    requires m != LEFT_PIXEL && Fit(nb, w, h)
    ensures |p| == w * h
  {
    seq(w * h, i requires 0 <= i < w * h =>
      RowOf(w, h, i); PredictedAt(m, nb, w, h, i % w, i / w))
  }

  // ---- LEFT_PIXEL ----

  /** The value predicting position i from the plane itself. */
  function Neighbour(s: seq<int>, w: nat, i: nat): int
    requires w > 0 && i <= |s|
  {
    if i % w > 0 then s[i - 1] else if i >= w then s[i - w] else 0
  }

  function LeftResidual(src: seq<int>, w: nat): (r: seq<i16>)
    ensures |r| == |src|
  {
    seq(|src|, i requires 0 <= i < |src| => if w == 0 then 0 else ToI16(src[i] - Neighbour(src, w, i)))
  }

  /** The inverse reads its own output. */
  function LeftRestored(res: seq<int>, w: nat, n: nat): (out: seq<i16>)
    requires w > 0 && n <= |res|
    ensures |out| == n
  {
    if n == 0 then []
    else
      var out := LeftRestored(res, w, n - 1);
      out + [ToI16(res[n - 1] + Neighbour(out, w, n - 1))]
  }

  lemma RestoredStep(res: seq<int>, w: nat, idx: nat, next: nat, now: seq<int>)
    requires w > 0 && idx < |res| && next == idx + 1 && now == LeftRestored(res, w, idx)
    ensures LeftRestored(res, w, next) == now + [ToI16(res[idx] + Neighbour(now, w, idx))]
  {
  }

  // ---- A whole plane ----

  function Residual(m: PredMode, nb: Neighbours, w: nat, h: nat, src: seq<int>): (r: seq<i16>)
    requires Fit(nb, w, h) && |src| == w * h
    ensures |r| == w * h
  {
    if m == LEFT_PIXEL then LeftResidual(src, w)
    else
      var p := Predicted(m, nb, w, h);
      seq(w * h, i requires 0 <= i < w * h => ToI16(src[i] - p[i]))
  }

  function Restored(m: PredMode, nb: Neighbours, w: nat, h: nat, res: seq<int>): (out: seq<i16>)
    requires Fit(nb, w, h) && |res| == w * h
    ensures |out| == w * h
  {
    if m == LEFT_PIXEL then (if w == 0 then [] else LeftRestored(res, w, w * h))
    else
      var p := Predicted(m, nb, w, h);
      seq(w * h, i requires 0 <= i < w * h => ToI16(res[i] + p[i]))
  }

  lemma WrapCancels(a: int, p: int)
    requires -0x8000 <= a < 0x8000
    ensures ToI16(ToI16(a - p) + p) == a
  {
  }

  lemma {:induction false} LeftUndone(src: seq<int>, w: nat, n: nat)
    requires w > 0 && n <= |src| && Is16(src)
    ensures LeftRestored(LeftResidual(src, w), w, n) == src[..n]
  {
    if n > 0 {
      LeftUndone(src, w, n - 1);
      LeftUndoneStep(src, w, n, n - 1);
    }
  }

  lemma LeftUndoneStep(src: seq<int>, w: nat, n: nat, i: nat)
    requires w > 0 && n <= |src| && Is16(src) && i + 1 == n && LeftRestored(LeftResidual(src, w), w, i) == src[..i]
    ensures LeftRestored(LeftResidual(src, w), w, n) == src[..n]
  {
    RestoredStep(LeftResidual(src, w), w, i, n, src[..i]);
    assert Neighbour(src[..i], w, i) == Neighbour(src, w, i);
    WrapCancels(src[i], Neighbour(src, w, i));
    assert src[..n] == src[..i] + [src[i]];
  }

  /** Main result: whatever mode and whatever neighbours both sides share, prediction is
      undone exactly, including where 16-bit subtraction wraps around. */
  lemma PredictionRoundTrip(m: PredMode, nb: Neighbours, w: nat, h: nat, src: seq<int>)
    requires Fit(nb, w, h) && |src| == w * h && Is16(src)
    ensures Restored(m, nb, w, h, Residual(m, nb, w, h, src)) == src
  {
    if m == LEFT_PIXEL {
      if w > 0 {
        LeftUndone(src, w, w * h);
        assert src[..w * h] == src;
      }
    } else {
      var p := Predicted(m, nb, w, h);
      forall i | 0 <= i < w * h
        ensures Restored(m, nb, w, h, Residual(m, nb, w, h, src))[i] == src[i]
      {
        WrapCancels(src[i], p[i]);
      }
    }
  }

  // ---- What each mode predicts ----

  /** LEFT_PIXEL sends the first sample as it is, the rest of the first column against the sample
      above, and every other sample against the one to its left. */
  lemma LeftResidualAt(src: seq<int>, w: nat, h: nat, x: nat, y: nat)
    requires |src| == w * h && x < w && y < h
    ensures y * w + x < |src| && (y > 0 ==> 0 <= (y - 1) * w < |src|)
    ensures x > 0 ==> LeftResidual(src, w)[y * w + x] == ToI16(src[y * w + x] - src[y * w + x - 1])
    ensures x == 0 && y > 0 ==> LeftResidual(src, w)[y * w + x] == ToI16(src[y * w] - src[(y - 1) * w])
    ensures x == 0 && y == 0 ==> LeftResidual(src, w)[y * w + x] == ToI16(src[0])
  {
    RowAbove(w, h, x, y);
    var i := y * w + x;
    NeighbourAt(src, w, x, i);
    assert LeftResidual(src, w)[i] == ToI16(src[i] - Neighbour(src, w, i));
  }

  lemma NeighbourAt(src: seq<int>, w: nat, x: nat, i: nat)
    requires w > 0 && i <= |src| && i % w == x
    ensures x > 0 ==> Neighbour(src, w, i) == src[i - 1]
    ensures x == 0 && i >= w ==> Neighbour(src, w, i) == src[i - w]
    ensures x == 0 && i < w ==> Neighbour(src, w, i) == 0
  {
  }

  lemma RowAbove(w: nat, h: nat, x: nat, y: nat)
    requires x < w && y < h
    ensures 0 <= y * w + x < w * h && (y * w + x) % w == x
    ensures y > 0 ==> 0 <= (y - 1) * w == y * w - w && y * w + x >= w
    ensures y == 0 ==> y * w + x == x < w
  {
    Position(w, h, y, x);
    if y > 0 {
      NextRow(w, y - 1);
      MulMonotone(0, y - 1, w);
    }
  }

  lemma {:induction false} RestoredPrefix(res: seq<int>, w: nat, m: nat, n: nat)
    requires w > 0 && m <= n <= |res|
    ensures LeftRestored(res, w, n)[..m] == LeftRestored(res, w, m)
  {
    if m < n {
      RestoredPrefix(res, w, m, n - 1);
      RestoredStep(res, w, n - 1, n, LeftRestored(res, w, n - 1));
      assert LeftRestored(res, w, n)[..n - 1] == LeftRestored(res, w, n - 1);
      assert LeftRestored(res, w, n)[..m] == LeftRestored(res, w, n)[..n - 1][..m];
    }
  }

  /** The inverse adds to each residual the sample to the left that it has already restored, or in
      the first column the one above. */
  lemma LeftRestoredAt(res: seq<int>, w: nat, h: nat, x: nat, y: nat, out: seq<int>)
    requires |res| == w * h && x < w && y < h && out == LeftRestored(res, w, w * h)
    ensures y * w + x < |res| && (y > 0 ==> 0 <= (y - 1) * w < |res|)
    ensures x > 0 ==> out[y * w + x] == ToI16(res[y * w + x] + out[y * w + x - 1])
    ensures x == 0 && y > 0 ==> out[y * w + x] == ToI16(res[y * w] + out[(y - 1) * w])
    ensures x == 0 && y == 0 ==> out[y * w + x] == ToI16(res[0])
  {
    RowAbove(w, h, x, y);
    var i := y * w + x;
    var now := LeftRestored(res, w, i);
    RestoredStep(res, w, i, i + 1, now);
    RestoredPrefix(res, w, i + 1, w * h);
    RestoredPrefix(res, w, i, w * h);
    assert out[i] == out[..i + 1][i];
    assert forall k :: 0 <= k < i ==> now[k] == out[..i][k];
  }

  /** A flat plane is its first sample and zeros. */
  lemma FlatResidual(src: seq<int>, w: nat, h: nat, v: int, i: nat)
    requires |src| == w * h && (forall k :: 0 <= k < |src| ==> src[k] == v) && i < |src|
    ensures LeftResidual(src, w)[i] == if i == 0 then ToI16(v) else 0
  {
    RowOf(w, h, i);
    LeftResidualAt(src, w, h, i % w, i / w);
  }

  /** HORIZONTAL repeats the sample left of each row, VERTICAL the one above each column. */
  lemma BorderResiduals(nb: Neighbours, w: nat, h: nat, src: seq<int>, x: nat, y: nat)
    requires Fit(nb, w, h) && |src| == w * h && x < w && y < h
    ensures y * w + x < w * h
    ensures nb.left.Some? ==>
      Residual(HORIZONTAL, nb, w, h, src)[y * w + x] == ToI16(src[y * w + x] - nb.left.value[y])
    ensures nb.top.Some? ==>
      Residual(VERTICAL, nb, w, h, src)[y * w + x] == ToI16(src[y * w + x] - nb.top.value[x])
  {
    RowAbove(w, h, x, y);
    Position(w, h, y, x);
  }

  /** DC is the mean of the neighbours truncated toward zero. */
  lemma DcIsMean(top: seq<int>, left: seq<int>, topLeft: i16, n: nat, sum: int, d: int)
    requires Is16(top) && Is16(left) && n == |top| + |left| > 0 && sum == SumOf(top) + SumOf(left)
    requires d == DcValue(Neighbours(Some(top), Some(left), topLeft))
    ensures if sum >= 0 then n * d <= sum < n * d + n else n * d - n < sum <= n * d
  {
    SumOfBound(top);
    SumOfBound(left);
    MeanOfBoth(|top|, |left|, SumOf(top), SumOf(left), n, sum);
    DcUnfold(top, left, topLeft);
  }

  lemma DcUnfold(top: seq<int>, left: seq<int>, topLeft: i16)
    requires Is16(top) && Is16(left) && |top| + |left| > 0
    ensures DcValue(Neighbours(Some(top), Some(left), topLeft))
         == ToI16(TruncDiv(SumOf(top) + SumOf(left), |top| + |left|))
  {
  }

  lemma MeanOfBoth(a: nat, b: nat, s: int, t: int, n: nat, sum: int)
    requires -0x8000 * a <= s <= 0x7FFF * a && -0x8000 * b <= t <= 0x7FFF * b
    requires n == a + b > 0 && sum == s + t
    ensures var d := ToI16(TruncDiv(sum, n));
      if sum >= 0 then n * d <= sum < n * d + n else n * d - n < sum <= n * d
  {
    MeanFits(sum, n);
  }

  lemma {:induction false} SumOfBound(s: seq<int>)
    requires Is16(s)
    ensures -0x8000 * |s| <= SumOf(s) <= 0x7FFF * |s|
  {
    if s != [] {
      SumOfBound(s[..|s| - 1]);
    }
  }

  lemma MeanFits(sum: int, n: nat)
    requires n > 0 && -0x8000 * n <= sum <= 0x7FFF * n
    ensures var d := TruncDiv(sum, n);
      && -0x8000 <= d < 0x8000
      && if sum >= 0 then n * d <= sum < n * d + n else n * d - n < sum <= n * d
  {
    var q := Abs(sum) / n;
    assert q * n <= Abs(sum) < q * n + n;
    QuotientFits(q, n, Abs(sum), if sum >= 0 then 0x7FFF else 0x8000);
  }

  lemma QuotientFits(q: nat, n: nat, a: nat, bound: nat)
    requires n > 0 && q * n <= a <= bound * n
    ensures q <= bound
  {
    assert (bound + 1) * n == bound * n + n;
    if q > bound {
      MulMonotone(bound + 1, q, n);
    }
  }

  /** Over a flat border PLANAR predicts its value, but one more when that is negative: the half it
      adds for rounding is cut off toward zero. */
  lemma PlanarOfFlat(nb: Neighbours, w: nat, h: nat, x: nat, y: nat, v: int)
    requires Fit(nb, w, h) && nb.top.Some? && nb.left.Some? && x < w && y < h && w + h >= 5
    requires -0x8000 <= v < 0x8000 && nb.topLeft == v && nb.top.value[x] == v && nb.left.value[y] == v
    ensures PredictedAt(PLANAR, nb, w, h, x, y) == if v >= 0 then v else v + 1
  {
    var n := w + h - 2;
    WeightsAdd(h - 1 - y, w - 1 - x, y + x, n, v);
    FlatMean(v, n, (w + h) / 2);
  }

  lemma WeightsAdd(a: nat, b: nat, c: nat, n: nat, v: int)
    requires a + b + c == n
    ensures a * v + b * v + c * v == n * v
  {
  }

  lemma FlatMean(v: int, n: nat, half: nat)
    requires n >= 3 && half == n / 2 + 1
    ensures TruncDiv(n * v + half, n) == if v >= 0 then v else v + 1
  {
    if v >= 0 {
      DivUnique(n * v + half, n, v, half);
    } else {
      var a := -(n * v + half);
      assert n * v <= n * -1;
      assert a == n * (-v - 1) + (n - half);
      DivUnique(a, n, -v - 1, n - half);
    }
  }

  /** In the far corner PLANAR weighs the corner sample alone. */
  lemma PlanarCorner(nb: Neighbours, w: nat, h: nat, v: nat)
    requires Fit(nb, w, h) && 0 < w && 0 < h && w + h >= 5 && nb.topLeft == v < 0x8000
    ensures PredictedAt(PLANAR, nb, w, h, w - 1, h - 1) == v
  {
    var n := w + h - 2;
    assert (h - 1 + (w - 1)) * v == n * v;
    FlatMean(v, n, n / 2 + 1);
  }

  // ---- Choosing the mode ----

  function SumAbs(s: seq<int>): nat
  {
    if s == [] then 0 else SumAbs(s[..|s| - 1]) + Abs(s[|s| - 1])
  }

  function Difference(a: seq<int>, b: seq<int>): (d: seq<int>)
    requires |a| == |b|
    ensures |d| == |a|
  {
    seq(|a|, i requires 0 <= i < |a| => a[i] - b[i])
  }

  /** Sum of absolute differences between the plane and its prediction. */
  function Cost(m: PredMode, nb: Neighbours, w: nat, h: nat, src: seq<int>): nat
    requires Fit(nb, w, h) && |src| == w * h
  {
    if m == LEFT_PIXEL then SumAbs(LeftResidual(src, w)) else SumAbs(Difference(src, Predicted(m, nb, w, h)))
  }

  function Better(a: PredMode, b: PredMode, nb: Neighbours, w: nat, h: nat, src: seq<int>): PredMode
    requires Fit(nb, w, h) && |src| == w * h
  {
    if Cost(b, nb, w, h, src) < Cost(a, nb, w, h, src) then b else a
  }

  /** selectPredMode: the modes whose neighbours exist are tried in order, strict improvement wins. */
  function SelectMode(nb: Neighbours, w: nat, h: nat, src: seq<int>): PredMode
    requires Fit(nb, w, h) && |src| == w * h
  {
    var m0 := DC;
    var m1 := if nb.left.Some? then Better(m0, HORIZONTAL, nb, w, h, src) else m0;
    var m2 := if nb.top.Some? then Better(m1, VERTICAL, nb, w, h, src) else m1;
    var m3 := if nb.top.Some? && nb.left.Some? then Better(m2, PLANAR, nb, w, h, src) else m2;
    Better(m3, LEFT_PIXEL, nb, w, h, src)
  }

  ghost predicate Available(m: PredMode, nb: Neighbours)
  {
    (m == HORIZONTAL ==> nb.left.Some?) && (m == VERTICAL ==> nb.top.Some?)
    && (m == PLANAR ==> nb.top.Some? && nb.left.Some?)
  }

  /** The chosen mode is available and the first of the cheapest of those. */
  lemma SelectModeIsBest(nb: Neighbours, w: nat, h: nat, src: seq<int>, other: PredMode)
    requires Fit(nb, w, h) && |src| == w * h
    ensures Available(SelectMode(nb, w, h, src), nb)
    ensures Available(other, nb) ==> Cost(SelectMode(nb, w, h, src), nb, w, h, src) <= Cost(other, nb, w, h, src)
    ensures Available(other, nb) && Cost(SelectMode(nb, w, h, src), nb, w, h, src) == Cost(other, nb, w, h, src) ==>
      ModeCode(SelectMode(nb, w, h, src)) <= ModeCode(other)
  {
  }

  /** Without neighbours only DC (which predicts zero) and LEFT_PIXEL are ever chosen. */
  lemma SelectModeAlone(w: nat, h: nat, src: seq<int>)
    requires |src| == w * h
    ensures SelectMode(NO_NEIGHBOURS, w, h, src) in {DC, LEFT_PIXEL}
    ensures forall i :: 0 <= i < w * h ==> Predicted(DC, NO_NEIGHBOURS, w, h)[i] == 0
  {
  }

  lemma {:induction false} SumAbsFlat(s: seq<int>, v: int)
    requires forall i :: 0 <= i < |s| ==> s[i] == v
    ensures SumAbs(s) == |s| * Abs(v)
  {
    if s != [] {
      SumAbsFlat(s[..|s| - 1], v);
      assert |s| * Abs(v) == (|s| - 1) * Abs(v) + Abs(v);
    }
  }

  lemma {:induction false} SumAbsFirst(s: seq<int>)
    requires s != [] && forall i :: 1 <= i < |s| ==> s[i] == 0
    ensures SumAbs(s) == Abs(s[0])
  {
    if |s| > 1 {
      SumAbsFirst(s[..|s| - 1]);
    }
  }

  /** A flat plane on its own goes out as LEFT_PIXEL, at the price of one sample, unless that costs as
      much as sending it as it is. */
  lemma FlatPlaneMode(src: seq<int>, w: nat, h: nat, v: int)
    requires |src| == w * h && |src| > 0 && -0x8000 <= v < 0x8000
    requires forall k :: 0 <= k < |src| ==> src[k] == v
    ensures SelectMode(NO_NEIGHBOURS, w, h, src) == if v != 0 && |src| > 1 then LEFT_PIXEL else DC
  {
    FlatCosts(src, w, h, v);
    if v != 0 && |src| > 1 {
      MulMonotone(2, |src|, Abs(v));
    }
  }

  lemma FlatCosts(src: seq<int>, w: nat, h: nat, v: int)
    requires |src| == w * h && |src| > 0 && -0x8000 <= v < 0x8000
    requires forall k :: 0 <= k < |src| ==> src[k] == v
    ensures Cost(LEFT_PIXEL, NO_NEIGHBOURS, w, h, src) == Abs(v)
    ensures Cost(DC, NO_NEIGHBOURS, w, h, src) == |src| * Abs(v)
  {
    var res, diff := LeftResidual(src, w), Difference(src, Predicted(DC, NO_NEIGHBOURS, w, h));
    forall i | 0 <= i < |src|
      ensures res[i] == if i == 0 then v else 0
      ensures diff[i] == v
    {
      FlatResidual(src, w, h, v, i);
    }
    SumAbsFirst(res);
    SumAbsFlat(diff, v);
  }
}
