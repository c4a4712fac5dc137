/** The reversible YCoCg-R colour transform, scalar form: src/core/simd_ycocg.cpp:13-36 and 117-142. */
module Color {
  import opened Words
  import opened Arithmetic
  import opened Frames
  import opened Buffers

  datatype YCoCg = YCoCg(y: int, co: int, cg: int)

  /** `>> 1` on a signed value is division by two rounding down. */
  function Forward(p: Pixel): YCoCg
  {
    var co := p.r - p.b;
    var t := p.b + co / 2;
    var cg := p.g - t;
    YCoCg(t + cg / 2, co, cg)
  }

  function Clamp8(v: int): u8 { Max(0, Min(255, v)) }

  function Inverse(c: YCoCg): Pixel
  {
    var t := c.y - c.cg / 2;
    var g := c.cg + t;
    var b := t - c.co / 2;
    var r := c.co + b;
    Pixel(Clamp8(b), Clamp8(g), Clamp8(r), 255)
  }

  function Opaque(p: Pixel): Pixel { p.(a := 255) }

  /** The transform is exact, and its components keep to nine bits. */
  lemma ColorRoundTrip(p: Pixel)
    ensures Inverse(Forward(p)) == Opaque(p)
    ensures var c := Forward(p); 0 <= c.y <= 255 && -255 <= c.co <= 255 && -255 <= c.cg <= 255
  {
  }

  /** Luma is (r + 2 g + b) / 4 rounded down; the chroma components are r - b and, up to a half, what g is
      above the mean of r and b. */
  lemma ComponentsMean(p: Pixel)
    ensures var c := Forward(p);
      && 4 * c.y <= p.r + 2 * p.g + p.b <= 4 * c.y + 3
      && c.co == p.r - p.b
      && 0 <= 2 * c.cg - (2 * p.g - p.r - p.b) <= 1
  {
  }

  /** B, G and R within e of the source, and opaque. */
  ghost predicate PixelNear(shown: Pixel, src: Pixel, e: int)
  {
    Close(shown.b, src.b, e) && Close(shown.g, src.g, e) && Close(shown.r, src.r, e) && shown.a == 255
  }

  ghost predicate PictureNear(shown: seq<Pixel>, src: seq<Pixel>, e: int)
  {
    |shown| == |src| && forall i :: 0 <= i < |src| ==> PixelNear(shown[i], src[i], e)
  }

  /** Errors of e in the three components move each of B, G, R by at most 2e + 1. */
  lemma ColorError(p: Pixel, c: YCoCg, e: nat)
    requires Close(c.y, Forward(p).y, e) && Close(c.co, Forward(p).co, e) && Close(c.cg, Forward(p).cg, e)
    ensures PixelNear(Inverse(c), p, 2 * e + 1)
  {
    var f := Forward(p);
    InverseError(c, f, e);
    ColorRoundTrip(p);
    assert p == Inverse(f).(a := p.a);
  }

  lemma InverseError(c: YCoCg, f: YCoCg, e: nat)
    requires Close(c.y, f.y, e) && Close(c.co, f.co, e) && Close(c.cg, f.cg, e)
    ensures PixelNear(Inverse(c), Inverse(f), 2 * e + 1)
  {
    var co, cg, co0, cg0 := c.co / 2, c.cg / 2, f.co / 2, f.cg / 2;
    HalvesNear(c, f, co, cg, co0, cg0, e);
    ClampedNear(Inverse(c), Inverse(f), c.y - cg - co, c.cg + (c.y - cg), c.co + (c.y - cg - co),
                f.y - cg0 - co0, f.cg + (f.y - cg0), f.co + (f.y - cg0 - co0), 2 * e + 1);
  }

  lemma ClampedNear(p: Pixel, q: Pixel, b: int, g: int, r: int, b0: int, g0: int, r0: int, e: nat)
    requires p == Pixel(Clamp8(b), Clamp8(g), Clamp8(r), 255) && q == Pixel(Clamp8(b0), Clamp8(g0), Clamp8(r0), 255)
    requires Close(b, b0, e) && Close(g, g0, e) && Close(r, r0, e)
    ensures PixelNear(p, q, e)
  {
    ClampNear(b, b0, e);
    ClampNear(g, g0, e);
    ClampNear(r, r0, e);
  }

  /** Before the clamp, with the halves named. */
  lemma HalvesNear(c: YCoCg, f: YCoCg, co: int, cg: int, co0: int, cg0: int, e: nat)
    requires Close(c.y, f.y, e) && Close(c.co, f.co, e) && Close(c.cg, f.cg, e)
    requires 2 * co <= c.co <= 2 * co + 1 && 2 * cg <= c.cg <= 2 * cg + 1
    requires 2 * co0 <= f.co <= 2 * co0 + 1 && 2 * cg0 <= f.cg <= 2 * cg0 + 1
    ensures Close(c.cg + (c.y - cg), f.cg + (f.y - cg0), 2 * e + 1)
    ensures Close(c.y - cg - co, f.y - cg0 - co0, 2 * e + 1)
    ensures Close(c.co + (c.y - cg - co), f.co + (f.y - cg0 - co0), 2 * e + 1)
  {
  }

  lemma ClampNear(v: int, v0: int, e: nat)
    requires Close(v, v0, e)
    ensures Close(Clamp8(v), Clamp8(v0), e)
  {
  }

  // ---- Planes of a tile ----

  datatype Channel = Y | CO | CG

  function Component(p: Pixel, ch: Channel): (v: i16)
    ensures -255 <= v <= 255
  {
    var c := Forward(p);
    match ch case Y => c.y case CO => c.co case CG => c.cg
  }

  function Plane(tile: seq<Pixel>, ch: Channel): (s: seq<i16>)
    ensures |s| == |tile|
  {
    seq(|tile|, i requires 0 <= i < |tile| => Component(tile[i], ch))
  }

  function FromPlanes(y: seq<int>, co: seq<int>, cg: seq<int>): (tile: seq<Pixel>)
    requires |y| == |co| == |cg|
    ensures |tile| == |y|
  {
    seq(|y|, i requires 0 <= i < |y| => Inverse(YCoCg(y[i], co[i], cg[i])))
  }

  function OpaqueTile(tile: seq<Pixel>): (r: seq<Pixel>)
    ensures |r| == |tile|
  {
    seq(|tile|, i requires 0 <= i < |tile| => Opaque(tile[i]))
  }

  /** Near by nothing is the opaque source. */
  lemma NearIsOpaque(shown: seq<Pixel>, src: seq<Pixel>)
    ensures PictureNear(shown, src, 0) <==> shown == OpaqueTile(src)
  {
    if PictureNear(shown, src, 0) {
      forall i | 0 <= i < |src|
        ensures shown[i] == OpaqueTile(src)[i]
      {
        assert PixelNear(shown[i], src[i], 0);
      }
    }
  }

  lemma PlanesRoundTrip(tile: seq<Pixel>)
    ensures FromPlanes(Plane(tile, Y), Plane(tile, CO), Plane(tile, CG)) == OpaqueTile(tile)
  {
    forall i | 0 <= i < |tile|
      ensures FromPlanes(Plane(tile, Y), Plane(tile, CO), Plane(tile, CG))[i] == Opaque(tile[i])
    {
      ColorRoundTrip(tile[i]);
    }
  }

  // ---- The row and pixel loops ----

  method BgraToYCoCgR(frame: seq<Pixel>, ghost g: Grid, b: Box, stride: nat,
                      yPlane: array<i16>, coPlane: array<i16>, cgPlane: array<i16>)
    requires |frame| == g.Area() && Inside(b, g) && stride == g.width
    requires yPlane.Length == b.w * b.h && coPlane.Length == b.w * b.h && cgPlane.Length == b.w * b.h
    requires yPlane != coPlane && coPlane != cgPlane && yPlane != cgPlane
    modifies yPlane, coPlane, cgPlane
    ensures yPlane[..] == Plane(Cut(frame, g, b), Y)
    ensures coPlane[..] == Plane(Cut(frame, g, b), CO)
    ensures cgPlane[..] == Plane(Cut(frame, g, b), CG)
  {
    ghost var tile := Cut(frame, g, b);
    var base := 0;
    for y := 0 to b.h
      invariant base == y * b.w
      invariant Filled(yPlane[..], Plane(tile, Y), base) && Filled(coPlane[..], Plane(tile, CO), base)
      invariant Filled(cgPlane[..], Plane(tile, CG), base)
    {
      RowFits(b.w, b.h, y, base);
      RowToYCoCgR(frame, g, b, stride, y, base, yPlane, coPlane, cgPlane);
      base := base + b.w;
    }
    FilledAll(yPlane[..], Plane(tile, Y), base);
    FilledAll(coPlane[..], Plane(tile, CO), base);
    FilledAll(cgPlane[..], Plane(tile, CG), base);
  }

  lemma SampleAt(frame: seq<Pixel>, g: Grid, b: Box, y: nat, x: nat, idx: int, at: int)
    requires |frame| == g.Area() && Inside(b, g) && y < b.h && x < b.w
    requires idx == y * b.w + x && at == (b.y + y) * g.width + (b.x + x)
    ensures 0 <= idx < b.w * b.h && 0 <= at < |frame| && Cut(frame, g, b)[idx] == frame[at]
  {
    PixelInRow(g, b, y, x, idx, at);
    CutAt(frame, g, b, idx, b.x + x, b.y + y);
  }

  method RowToYCoCgR(frame: seq<Pixel>, ghost g: Grid, b: Box, stride: nat, y: nat, base: nat,
                     yPlane: array<i16>, coPlane: array<i16>, cgPlane: array<i16>)
    requires |frame| == g.Area() && Inside(b, g) && stride == g.width
    requires y < b.h && base == y * b.w && base + b.w <= b.w * b.h
    requires yPlane != coPlane && coPlane != cgPlane && yPlane != cgPlane
    requires var tile := Cut(frame, g, b);
      && Filled(yPlane[..], Plane(tile, Y), base)
      && Filled(coPlane[..], Plane(tile, CO), base)
      && Filled(cgPlane[..], Plane(tile, CG), base)
    modifies yPlane, coPlane, cgPlane
    ensures var tile := Cut(frame, g, b);
      && Filled(yPlane[..], Plane(tile, Y), base + b.w)
      && Filled(coPlane[..], Plane(tile, CO), base + b.w)
      && Filled(cgPlane[..], Plane(tile, CG), base + b.w)
  {
    ghost var tile := Cut(frame, g, b);
    for x := 0 to b.w
      invariant Filled(yPlane[..], Plane(tile, Y), base + x) && Filled(coPlane[..], Plane(tile, CO), base + x)
      invariant Filled(cgPlane[..], Plane(tile, CG), base + x)
    {
      var at := (b.y + y) * stride + (b.x + x);
      SampleAt(frame, g, b, y, x, base + x, at);
      var p := frame[at];
      ColorRoundTrip(p);
      var co := p.r - p.b;
      var t := p.b + co / 2;
      var cg := p.g - t;
      ghost var n, y0, co0, cg0 := base + x, yPlane[..], coPlane[..], cgPlane[..];
      FilledStep(y0, Plane(tile, Y), n);
      FilledStep(co0, Plane(tile, CO), n);
      FilledStep(cg0, Plane(tile, CG), n);
      yPlane[base + x] := t + cg / 2;
      coPlane[base + x] := co;
      cgPlane[base + x] := cg;
      assert yPlane[..] == y0[n := Plane(tile, Y)[n]];
      assert coPlane[..] == co0[n := Plane(tile, CO)[n]];
      assert cgPlane[..] == cg0[n := Plane(tile, CG)[n]];
    }
  }

  /** Writes a tile into the frame; every other pixel keeps its value. */
  method YCoCgRToBgra(y: seq<i16>, co: seq<i16>, cg: seq<i16>, ghost g: Grid, b: Box, stride: nat, out: array<Pixel>)
    requires |y| == |co| == |cg| == b.w * b.h
    requires out.Length == g.Area() && Inside(b, g) && stride == g.width
    modifies out
    ensures out[..] == Paint(old(out[..]), g, b, FromPlanes(y, co, cg))
  {
    ghost var before, tile := out[..], FromPlanes(y, co, cg);
    var base := 0;
    PartStart(before, g, b, tile);
    for row := 0 to b.h
      invariant base == row * b.w
      invariant Part(before, out[..], g, b, tile, row, 0)
    {
      RowFits(b.w, b.h, row, base);
      for x := 0 to b.w
        invariant Part(before, out[..], g, b, tile, row, x)
      {
        var at := (b.y + row) * stride + (b.x + x);
        ghost var now := out[..];
        PartStep(before, now, g, b, tile, row, x, base + x, at);
        out[at] := Inverse(YCoCg(y[base + x], co[base + x], cg[base + x]));
        assert out[..] == now[at := tile[base + x]];
      }
      PartRow(before, out[..], g, b, tile, row);
      base := base + b.w;
    }
    PartDone(before, out[..], g, b, tile);
  }
}
