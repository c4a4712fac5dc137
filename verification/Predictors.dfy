/** The loops of src/core/simd_predict.cpp (scalar forms), of TileEncoder::selectPredMode and
    applyPrediction, and of TileDecoder::inversePrediction, each against its function. */
module Predictors {
  import opened Words
  import opened Arithmetic
  import opened Predict
  import opened Buffers

  lemma PredictedIs(m: PredMode, nb: Neighbours, w: nat, h: nat, x: nat, y: nat, idx: int)
    requires m != LEFT_PIXEL && Fit(nb, w, h) && x < w && y < h && idx == y * w + x
    ensures 0 <= idx < w * h && Predicted(m, nb, w, h)[idx] == PredictedAt(m, nb, w, h, x, y)
  {
    Position(w, h, y, x);
  }

  lemma PrefixSum(s: seq<int>, i: nat)
    requires i < |s|
    ensures SumOf(s[..i + 1]) == SumOf(s[..i]) + s[i]
  {
    assert s[..i + 1][..i] == s[..i];
  }

  method AddAll(s: seq<i16>, start: int) returns (sum: int)
    ensures sum == start + SumOf(s)
  {
    sum := start;
    for i := 0 to |s|
      invariant sum == start + SumOf(s[..i])
    {
      PrefixSum(s, i);
      sum := sum + s[i];
    }
    assert s[..|s|] == s;
  }

  method PredictDC(nb: Neighbours, w: nat, h: nat, out: array<i16>)
    requires Fit(nb, w, h) && out.Length == w * h
    modifies out
    ensures out[..] == Predicted(DC, nb, w, h)
  {
    var sum, count := 0, 0;
    if nb.top.Some? {
      sum := AddAll(nb.top.value, sum);
      count := count + w;
    }
    if nb.left.Some? {
      sum := AddAll(nb.left.value, sum);
      count := count + h;
    }
    var dc := if count > 0 then ToI16(TruncDiv(sum, count)) else 0;
    for i := 0 to w * h
      invariant forall k :: 0 <= k < i ==> out[k] == dc
    {
      out[i] := dc;
    }
  }

  method PredictH(nb: Neighbours, w: nat, h: nat, out: array<i16>)
    requires Fit(nb, w, h) && out.Length == w * h
    modifies out
    ensures out[..] == Predicted(HORIZONTAL, nb, w, h)
  {
    ghost var spec := Predicted(HORIZONTAL, nb, w, h);
    for y := 0 to h
      invariant Filled(out[..], spec, y * w)
    {
      var val := if nb.left.Some? then nb.left.value[y] else 0;
      for x := 0 to w
        invariant Filled(out[..], spec, y * w + x)
      {
        var idx := y * w + x;
        PredictedIs(HORIZONTAL, nb, w, h, x, y, idx);
        ghost var now := out[..];
        FilledStep(now, spec, idx);
        out[idx] := val;
        assert out[..] == now[idx := spec[idx]];
      }
      NextRow(w, y);
    }
  }

  method PredictV(nb: Neighbours, w: nat, h: nat, out: array<i16>)
    requires Fit(nb, w, h) && out.Length == w * h
    modifies out
    ensures out[..] == Predicted(VERTICAL, nb, w, h)
  {
    ghost var spec := Predicted(VERTICAL, nb, w, h);
    for y := 0 to h
      invariant Filled(out[..], spec, y * w)
    {
      for x := 0 to w
        invariant Filled(out[..], spec, y * w + x)
      {
        var idx := y * w + x;
        PredictedIs(VERTICAL, nb, w, h, x, y, idx);
        ghost var now := out[..];
        FilledStep(now, spec, idx);
        out[idx] := if nb.top.Some? then nb.top.value[x] else 0;
        assert out[..] == now[idx := spec[idx]];
      }
      NextRow(w, y);
    }
  }

  /** The body of predictPlanar's loops. */
  method BlendAt(nb: Neighbours, w: nat, h: nat, x: nat, y: nat) returns (pred: i16)
    requires Fit(nb, w, h) && x < w && y < h
    ensures pred == PlanarValue(nb, w, h, x, y)
  {
    var wh := w + h;
    var topVal := if nb.top.Some? then nb.top.value[x] else 0;
    var leftVal := if nb.left.Some? then nb.left.value[y] else 0;
    var sum := (h - 1 - y) * topVal + (w - 1 - x) * leftVal + (y + x) * nb.topLeft + wh / 2;
    pred := ToI16(TruncDiv(sum, Max(wh - 2, 1)));
  }

  method BlendRow(nb: Neighbours, w: nat, h: nat, y: nat, out: array<i16>, ghost spec: seq<i16>)
    requires Fit(nb, w, h) && y < h && out.Length == w * h
    requires spec == Predicted(PLANAR, nb, w, h) && Filled(out[..], spec, y * w)
    modifies out
    ensures Filled(out[..], spec, y * w + w)
  {
    for x := 0 to w
      invariant Filled(out[..], spec, y * w + x)
    {
      var idx := y * w + x;
      PredictedIs(PLANAR, nb, w, h, x, y, idx);
      ghost var now := out[..];
      FilledStep(now, spec, idx);
      out[idx] := BlendAt(nb, w, h, x, y);
      assert out[..] == now[idx := spec[idx]];
    }
  }

  method PredictPlanar(nb: Neighbours, w: nat, h: nat, out: array<i16>)
    requires Fit(nb, w, h) && out.Length == w * h
    modifies out
    ensures out[..] == Predicted(PLANAR, nb, w, h)
  {
    ghost var spec := Predicted(PLANAR, nb, w, h);
    for y := 0 to h
      invariant Filled(out[..], spec, y * w)
    {
      BlendRow(nb, w, h, y, out, spec);
      NextRow(w, y);
    }
  }

  /** Position (x, y) seen from the scan order. */
  lemma ScanPosition(w: nat, h: nat, x: nat, y: nat, idx: int)
    requires x < w && y < h && idx == y * w + x
    ensures 0 <= idx < w * h && idx % w == x && (y > 0 <==> idx >= w)
  {
    Position(w, h, y, x);
    if y > 0 {
      MulMonotone(1, y, w);
    }
  }

  function LeftOrAbove(s: seq<int>, w: nat, x: nat, y: nat, idx: nat): int
    requires (x > 0 ==> 0 < idx <= |s|) && (y > 0 ==> w <= idx < |s| + w)
  {
    if x > 0 then s[idx - 1] else if y > 0 then s[idx - w] else 0
  }

  lemma NeighbourIs(s: seq<int>, w: nat, h: nat, x: nat, y: nat, idx: nat)
    requires x < w && y < h && idx == y * w + x <= |s|
    ensures (x > 0 ==> idx > 0) && (y > 0 ==> idx >= w) && idx < w * h
    ensures Neighbour(s, w, idx) == LeftOrAbove(s, w, x, y, idx)
  {
    ScanPosition(w, h, x, y, idx);
  }

  method PredictLeftPixel(src: seq<i16>, residual: array<i16>, w: nat, h: nat)
    requires |src| == w * h == residual.Length
    modifies residual
    ensures residual[..] == LeftResidual(src, w)
  {
    ghost var spec := LeftResidual(src, w);
    for y := 0 to h
      invariant Filled(residual[..], spec, y * w)
    {
      for x := 0 to w
        invariant Filled(residual[..], spec, y * w + x)
      {
        var idx := y * w + x;
        ScanPosition(w, h, x, y, idx);
        NeighbourIs(src, w, h, x, y, idx);
        ghost var now := residual[..];
        FilledStep(now, spec, idx);
        var predicted: i16;
        if x > 0 {
          predicted := src[idx - 1];
        } else if y > 0 {
          predicted := src[idx - w];
        } else {
          predicted := 0;
        }
        residual[idx] := ToI16(src[idx] - predicted);
        assert residual[..] == now[idx := spec[idx]];
      }
      NextRow(w, y);
    }
    FilledAll(residual[..], spec, w * h) by {
      NextRow(w, h);
    }
  }

  method RestoreSample(residual: seq<i16>, out: array<i16>, w: nat, h: nat, x: nat, y: nat, idx: nat)
    requires x < w && y < h && idx == y * w + x < |residual| == out.Length
    requires out[..idx] == LeftRestored(residual, w, idx)
    modifies out
    ensures out[..idx + 1] == LeftRestored(residual, w, idx + 1)
  {
    ghost var now := out[..idx];
    NeighbourIs(now, w, h, x, y, idx);
    RestoredStep(residual, w, idx, idx + 1, now);
    var predicted: i16;
    if x > 0 {
      predicted := out[idx - 1];
    } else if y > 0 {
      predicted := out[idx - w];
    } else {
      predicted := 0;
    }
    out[idx] := ToI16(residual[idx] + predicted);
    assert out[..idx + 1] == now + [out[idx]];
  }

  method RestoreRow(residual: seq<i16>, out: array<i16>, w: nat, h: nat, y: nat, ghost base: nat)
    requires w > 0 && y < h && base == y * w && base + w <= |residual| == out.Length
    requires out[..base] == LeftRestored(residual, w, base)
    modifies out
    ensures out[..base + w] == LeftRestored(residual, w, base + w)
  {
    for x := 0 to w
      invariant out[..base + x] == LeftRestored(residual, w, base + x)
    {
      RestoreSample(residual, out, w, h, x, y, y * w + x);
    }
  }

  /** Reads back what it has written. */
  method InversePredictLeftPixel(residual: seq<i16>, out: array<i16>, w: nat, h: nat)
    requires |residual| == w * h == out.Length && w > 0
    modifies out
    ensures out[..] == LeftRestored(residual, w, w * h)
  {
    ghost var base, n := 0, w * h;
    for y := 0 to h
      invariant base == y * w && base <= n && out[..base] == LeftRestored(residual, w, base)
    {
      RowFits(w, h, y, base);
      RestoreRow(residual, out, w, h, y, base);
      base := base + w;
    }
    assert base == n;
    assert out[..n] == out[..];
  }

  lemma PrefixAbs(s: seq<int>, i: nat)
    requires i < |s|
    ensures SumAbs(s[..i + 1]) == SumAbs(s[..i]) + Abs(s[i])
  {
    assert s[..i + 1][..i] == s[..i];
  }

  method ComputeSAD(a: seq<i16>, b: seq<i16>) returns (sum: nat)
    requires |a| == |b|
    ensures sum == SumAbs(Difference(a, b))
  {
    ghost var d := Difference(a, b);
    sum := 0;
    for i := 0 to |a|
      invariant sum == SumAbs(d[..i])
    {
      PrefixAbs(d, i);
      var x: int, y: int := a[i], b[i];
      sum := sum + Abs(x - y);
    }
    assert d[..|d|] == d;
  }

  method SumMagnitudes(a: seq<i16>) returns (sum: nat)
    ensures sum == SumAbs(a)
  {
    sum := 0;
    for i := 0 to |a|
      invariant sum == SumAbs(a[..i])
    {
      PrefixAbs(a, i);
      sum := sum + Abs(a[i]);
    }
    assert a[..|a|] == a;
  }

  /** The switch over the modes that predict from neighbours. */
  method MakePrediction(m: PredMode, nb: Neighbours, w: nat, h: nat) returns (predBuf: array<i16>)
    requires m != LEFT_PIXEL && Fit(nb, w, h)
    ensures fresh(predBuf) && predBuf[..] == Predicted(m, nb, w, h)
  {
    MulMonotone(0, w, h);
    predBuf := new i16[w * h];
    match m
    case DC => PredictDC(nb, w, h, predBuf);
    case HORIZONTAL => PredictH(nb, w, h, predBuf);
    case VERTICAL => PredictV(nb, w, h, predBuf);
    case PLANAR => PredictPlanar(nb, w, h, predBuf);
  }
}
