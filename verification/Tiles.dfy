/** The payload of one tile in each coded mode, as bytes and as the decoder reads them:
    src/codec/omni/tile_encoder.cpp:188-453, src/codec/omni/tile_decoder.cpp:143-369. */
module Tiles {
  import opened Words
  import opened Arithmetic
  import opened Bitstream
  import opened Residuals
  import opened Predict
  import opened NearLossless
  import opened Frames
  import opened Color
  import opened Blocks

  // ---- Sixteen-bit values as one or two byte symbols ----

  /** Whether every value fits int8, so that one symbol a value is enough. */
  predicate SingleByte(vals: seq<int>) { forall i :: 0 <= i < |vals| ==> -128 <= vals[i] <= 127 }

  function Narrow(vals: seq<int>): (s: seq<u8>)
    ensures |s| == |vals|
  {
    seq(|vals|, i requires 0 <= i < |vals| => ToU8(vals[i]))
  }

  function Half(v: int, k: nat): u8 { if k == 0 then ToU16(v) % 0x100 else ToU16(v) / 0x100 }

  /** Low byte, then high byte. */
  function Wide(vals: seq<int>): (s: seq<u8>)
    ensures |s| == 2 * |vals|
  {
    seq(2 * |vals|, j requires 0 <= j < 2 * |vals| => Half(vals[j / 2], j % 2))
  }

  function SymbolsOf(vals: seq<int>): (s: seq<u8>)
    ensures |s| == (if SingleByte(vals) then |vals| else 2 * |vals|)
  {
    if SingleByte(vals) then Narrow(vals) else Wide(vals)
  }

  function Widened(s: seq<u8>): (vals: seq<i16>)
    ensures |vals| == |s|
  {
    seq(|s|, i requires 0 <= i < |s| => ToI8(s[i]))
  }

  function FromHalves(s: seq<u8>, n: nat): (vals: seq<i16>)
    requires |s| == 2 * n
    ensures |vals| == n
  {
    seq(n, i requires 0 <= i < n => ToI16(FromBe16(s[2 * i + 1], s[2 * i])))
  }

  function ValuesOf(single: bool, s: seq<u8>, n: nat): (vals: seq<i16>)
    requires |s| == (if single then n else 2 * n)
    ensures |vals| == n
  {
    if single then Widened(s) else FromHalves(s, n)
  }

  lemma HalvesRejoin(v: int)
    requires -0x8000 <= v < 0x8000
    ensures ToI16(FromBe16(Half(v, 1), Half(v, 0))) == v
  {
  }

  lemma WideAt(vals: seq<int>, i: nat)
    requires i < |vals|
    ensures Wide(vals)[2 * i] == Half(vals[i], 0) && Wide(vals)[2 * i + 1] == Half(vals[i], 1)
  {
    assert 2 * i / 2 == i && (2 * i + 1) / 2 == i && 2 * i % 2 == 0 && (2 * i + 1) % 2 == 1;
  }

  lemma WideRoundTrip(vals: seq<int>)
    requires Is16(vals)
    ensures FromHalves(Wide(vals), |vals|) == vals
  {
    forall i | 0 <= i < |vals|
      ensures FromHalves(Wide(vals), |vals|)[i] == vals[i]
    {
      WideBack(vals, i);
    }
  }

  lemma WideBack(vals: seq<int>, i: nat)
    requires Is16(vals) && i < |vals|
    ensures FromHalves(Wide(vals), |vals|)[i] == vals[i]
  {
    WideAt(vals, i);
    HalvesRejoin(vals[i]);
  }

  lemma SymbolRoundTrip(vals: seq<int>)
    requires Is16(vals)
    ensures ValuesOf(SingleByte(vals), SymbolsOf(vals), |vals|) == vals
  {
    if SingleByte(vals) {
      assert Widened(Narrow(vals)) == vals;
    } else {
      WideRoundTrip(vals);
    }
  }

  // ---- The three planes one after another ----

  function PlaneOf<T>(vals: seq<T>, n: nat, k: nat): (s: seq<T>)
    requires |vals| == 3 * n && k < 3
    ensures |s| == n
  {
    MulMonotone(k + 1, 3, n);
    MulMonotone(0, k, n);
    vals[k * n..(k + 1) * n]
  }

  lemma ThreePlanes<T>(a: seq<T>, b: seq<T>, c: seq<T>, n: nat)
    requires |a| == |b| == |c| == n
    ensures PlaneOf(a + b + c, n, 0) == a && PlaneOf(a + b + c, n, 1) == b && PlaneOf(a + b + c, n, 2) == c
  {
  }

  // ---- Neighbours and modes of the three channels ----

  datatype Three<T> = Three(y: T, co: T, cg: T)

  const ALONE := Three(NO_NEIGHBOURS, NO_NEIGHBOURS, NO_NEIGHBOURS)

  ghost predicate FitAll(nb: Three<Neighbours>, w: nat, h: nat)
  {
    Fit(nb.y, w, h) && Fit(nb.co, w, h) && Fit(nb.cg, w, h)
  }

  function Modes(nb: Three<Neighbours>, w: nat, h: nat, tile: seq<Pixel>): Three<PredMode>
    requires FitAll(nb, w, h) && |tile| == w * h
  {
    Three(SelectMode(nb.y, w, h, Plane(tile, Y)), SelectMode(nb.co, w, h, Plane(tile, CO)),
          SelectMode(nb.cg, w, h, Plane(tile, CG)))
  }

  function TileResiduals(nb: Three<Neighbours>, m: Three<PredMode>, w: nat, h: nat, tile: seq<Pixel>): (r: seq<i16>)
    requires FitAll(nb, w, h) && |tile| == w * h
    ensures |r| == 3 * (w * h)
  {
    Residual(m.y, nb.y, w, h, Plane(tile, Y)) + Residual(m.co, nb.co, w, h, Plane(tile, CO))
      + Residual(m.cg, nb.cg, w, h, Plane(tile, CG))
  }

  function TileRestored(nb: Three<Neighbours>, m: Three<PredMode>, w: nat, h: nat, res: seq<int>): (tile: seq<Pixel>)
    requires FitAll(nb, w, h) && |res| == 3 * (w * h)
    ensures |tile| == w * h
  {
    FromPlanes(Restored(m.y, nb.y, w, h, PlaneOf(res, w * h, 0)), Restored(m.co, nb.co, w, h, PlaneOf(res, w * h, 1)),
               Restored(m.cg, nb.cg, w, h, PlaneOf(res, w * h, 2)))
  }

  /** Prediction and colour transform of a whole tile are undone exactly. */
  lemma TileRoundTrip(nb: Three<Neighbours>, m: Three<PredMode>, w: nat, h: nat, tile: seq<Pixel>)
    requires FitAll(nb, w, h) && |tile| == w * h
    ensures TileRestored(nb, m, w, h, TileResiduals(nb, m, w, h, tile)) == OpaqueTile(tile)
  {
    PredictionRoundTrip(m.y, nb.y, w, h, Plane(tile, Y));
    PredictionRoundTrip(m.co, nb.co, w, h, Plane(tile, CO));
    PredictionRoundTrip(m.cg, nb.cg, w, h, Plane(tile, CG));
    ThreePlanes(Residual(m.y, nb.y, w, h, Plane(tile, Y)), Residual(m.co, nb.co, w, h, Plane(tile, CO)),
                Residual(m.cg, nb.cg, w, h, Plane(tile, CG)), w * h);
    PlanesRoundTrip(tile);
  }

  /** What near-lossless coding in given modes makes of a tile, with the entropy coder taken out. */
  function NearTile(nb: Three<Neighbours>, m: Three<PredMode>, w: nat, h: nat, tile: seq<Pixel>, q: nat)
    : (r: seq<Pixel>)
    requires FitAll(nb, w, h) && |tile| == w * h && q > 0
    ensures |r| == w * h
  {
    FromPlanes(NearPlane(m.y, nb.y, w, h, Plane(tile, Y), q), NearPlane(m.co, nb.co, w, h, Plane(tile, CO), q),
               NearPlane(m.cg, nb.cg, w, h, Plane(tile, CG), q))
  }

  lemma NearTileIsRestored(nb: Three<Neighbours>, m: Three<PredMode>, w: nat, h: nat, tile: seq<Pixel>, q: nat)
    requires FitAll(nb, w, h) && |tile| == w * h && q > 0
    ensures TileRestored(nb, m, w, h, Dequantised(Quantised(TileResiduals(nb, m, w, h, tile), q), q))
         == NearTile(nb, m, w, h, tile, q)
  {
    var a := Residual(m.y, nb.y, w, h, Plane(tile, Y));
    var b := Residual(m.co, nb.co, w, h, Plane(tile, CO));
    var c := Residual(m.cg, nb.cg, w, h, Plane(tile, CG));
    DequantisedParts(a, b, c, q);
    ThreePlanes(Dequantised(Quantised(a, q), q), Dequantised(Quantised(b, q), q), Dequantised(Quantised(c, q), q),
                w * h);
  }

  lemma DequantisedParts(a: seq<int>, b: seq<int>, c: seq<int>, q: nat)
    requires q > 0
    ensures Dequantised(Quantised(a + b + c, q), q)
         == Dequantised(Quantised(a, q), q) + Dequantised(Quantised(b, q), q) + Dequantised(Quantised(c, q), q)
  {
  }

  lemma FlatPlaneError(m: PredMode, w: nat, h: nat, src: seq<int>, q: nat, i: nat, e: nat)
    requires m != LEFT_PIXEL && 1 <= q <= 255 && |src| == w * h && Within(src, 255) && i < w * h && q / 2 <= e
    ensures Close(NearPlane(m, NO_NEIGHBOURS, w, h, src, q)[i], src[i], e)
  {
    NearLosslessFlat(m, w, h, src, NO_NEIGHBOURS, q);
  }

  lemma AtLeastOnce(k: nat, half: nat)
    requires k >= 1
    ensures half <= k * half
  {
    MulMonotone(1, k, half);
  }

  /** The bound on one plane, whichever mode was chosen. */
  lemma PlaneError(m: PredMode, w: nat, h: nat, src: seq<int>, q: nat, i: nat, e: nat)
    requires w <= 64 && h <= 64 && 1 <= q <= 255 && |src| == w * h && Within(src, 255) && i < w * h
    requires w > 0 && e == (i % w + i / w + 1) * (q / 2)
    ensures Close(NearPlane(m, NO_NEIGHBOURS, w, h, src, q)[i], src[i], e)
  {
    if m == LEFT_PIXEL {
      NearLosslessDrift(w, h, src, NO_NEIGHBOURS, q, i);
    } else {
      AtLeastOnce(i % w + i / w + 1, q / 2);
      FlatPlaneError(m, w, h, src, q, i, e);
    }
  }

  lemma PlaneIsNineBit(tile: seq<Pixel>, ch: Channel)
    ensures Within(Plane(tile, ch), 255)
  {
    forall i | 0 <= i < |tile|
      ensures -255 <= Plane(tile, ch)[i] <= 255
    {
      ColorRoundTrip(tile[i]);
    }
  }

  /** What near-lossless coding does to a pixel: B, G and R of the pixel at (x, y) are off by at
      most 2 * (x + y + 1) * floor(q/2) + 1. */
  lemma NearTileError(m: Three<PredMode>, w: nat, h: nat, tile: seq<Pixel>, q: nat, i: nat, e: nat)
    requires w <= 64 && h <= 64 && 1 <= q <= 255 && |tile| == w * h && i < w * h
    requires w > 0 && e == (i % w + i / w + 1) * (q / 2)
    ensures PixelNear(NearTile(ALONE, m, w, h, tile, q)[i], tile[i], 2 * e + 1)
  {
    PlaneIsNineBit(tile, Y);
    PlaneIsNineBit(tile, CO);
    PlaneIsNineBit(tile, CG);
    PlaneError(m.y, w, h, Plane(tile, Y), q, i, e);
    PlaneError(m.co, w, h, Plane(tile, CO), q, i, e);
    PlaneError(m.cg, w, h, Plane(tile, CG), q, i, e);
    ColorError(tile[i], YCoCg(NearPlane(m.y, NO_NEIGHBOURS, w, h, Plane(tile, Y), q)[i],
                              NearPlane(m.co, NO_NEIGHBOURS, w, h, Plane(tile, CO), q)[i],
                              NearPlane(m.cg, NO_NEIGHBOURS, w, h, Plane(tile, CG), q)[i]), e);
  }

  // ---- The promised bound on tiles ----

  /** What is promised of a tile: no component of no pixel is off by more than maxError. */
  ghost predicate TileKeepsPromise(w: nat, h: nat, tile: seq<Pixel>, maxError: nat)
    requires |tile| == w * h
  {
    && PlaneKeepsPromise(w, h, Plane(tile, Y), maxError)
    && PlaneKeepsPromise(w, h, Plane(tile, CO), maxError)
    && PlaneKeepsPromise(w, h, Plane(tile, CG), maxError)
  }

  ghost predicate TilesKeepPromise(maxError: nat)
  {
    forall w: nat, h: nat, tile: seq<Pixel> | w <= 64 && h <= 64 && |tile| == w * h ::
      TileKeepsPromise(w, h, tile, maxError)
  }

  /** Four grey pixels whose Y plane is the row on which errors add up. */
  function GreyRow(q: nat): (tile: seq<Pixel>)
    requires 2 <= q <= 255
    ensures |tile| == 4 * 1
  {
    seq(4, i requires 0 <= i < 4 => GreyAt(q, i))
  }

  function GreyAt(q: nat, i: nat): Pixel
    requires 2 <= q <= 255 && i < 4
  {
    RowIsByte(q, i);
    var v := DriftingRow(q)[i];
    Pixel(v, v, v, 255)
  }

  lemma RowIsByte(q: nat, i: nat)
    requires 2 <= q <= 255 && i < 4
    ensures 0 <= DriftingRow(q)[i] <= 255
  {
  }

  lemma GreyPlane(q: nat)
    requires 2 <= q <= 255
    ensures Plane(GreyRow(q), Y) == DriftingRow(q)
  {
    forall i | 0 <= i < 4
      ensures Plane(GreyRow(q), Y)[i] == DriftingRow(q)[i]
    {
      assert GreyRow(q)[i] == GreyAt(q, i);
    }
  }

  /** The per-component bound holds for every tile exactly when the configured maximum is at most
      1.  The default, 2, breaks it on a row of four grey pixels. */
  lemma TilesKeepPromiseUpToOne(maxError: nat)
    requires maxError <= 255
    ensures TilesKeepPromise(maxError) <==> maxError <= 1
  {
    if maxError <= 1 {
      forall w: nat, h: nat, tile: seq<Pixel> | w <= 64 && h <= 64 && |tile| == w * h
        ensures TileKeepsPromise(w, h, tile, maxError)
      {
        PromiseOnTile(w, h, tile, maxError);
      }
    } else {
      GreyPlane(maxError);
      PromiseBroken(maxError);
      assert !TileKeepsPromise(4, 1, GreyRow(maxError), maxError);
    }
  }

  lemma PromiseOnTile(w: nat, h: nat, tile: seq<Pixel>, maxError: nat)
    requires w <= 64 && h <= 64 && |tile| == w * h && maxError <= 1
    ensures TileKeepsPromise(w, h, tile, maxError)
  {
    PlaneIsNineBit(tile, Y);
    PlaneIsNineBit(tile, CO);
    PlaneIsNineBit(tile, CG);
    StepOneExact(w, h, Plane(tile, Y), maxError);
    StepOneExact(w, h, Plane(tile, CO), maxError);
    StepOneExact(w, h, Plane(tile, CG), maxError);
  }

  // ---- Bytes of a tile ----

  function ModeField(m: PredMode): Field { Bits(ModeCode(m), 3) }

  function FlagField(single: bool): Field { Bits(if single then 1 else 0, 1) }

  function ModeFields(m: Three<PredMode>): seq<Field> { [ModeField(m.y), ModeField(m.co), ModeField(m.cg)] }

  ghost predicate FitsSection(n: nat) { 6 * n <= MAX_SYMBOLS }

  ghost predicate FitsValues(n: nat) { 2 * n <= MAX_SYMBOLS }

  /** The width flag and the residual section of some values. */
  ghost function ValueBytes(vals: seq<int>): seq<u8>
    requires FitsValues(|vals|)
  {
    BitGroup([FlagField(SingleByte(vals))]) + ResidualBytes(SymbolsOf(vals))
  }

  /** A lossless tile in given modes. */
  ghost function LosslessBytes(nb: Three<Neighbours>, m: Three<PredMode>, w: nat, h: nat, tile: seq<Pixel>): seq<u8>
    requires FitAll(nb, w, h) && |tile| == w * h && FitsSection(w * h)
  {
    var res := TileResiduals(nb, m, w, h, tile);
    BitGroup(ModeFields(m) + [FlagField(SingleByte(res))]) + ResidualBytes(SymbolsOf(res))
  }

  ghost function NearLosslessBytes(nb: Three<Neighbours>, m: Three<PredMode>, w: nat, h: nat, tile: seq<Pixel>, q: nat)
    : seq<u8>
    requires FitAll(nb, w, h) && |tile| == w * h && FitsSection(w * h) && q > 0
  {
    var res := Quantised(TileResiduals(nb, m, w, h, tile), q);
    BitGroup(ModeFields(m)) + ([ToU8(q)] + ValueBytes(res))
  }

  /** The modes the encoder of whole frames chooses: its tiles have no neighbours. */
  function Alone(w: nat, h: nat, tile: seq<Pixel>): Three<PredMode>
    requires |tile| == w * h
  {
    Modes(ALONE, w, h, tile)
  }

  // ---- Lossy tiles ----

  function BlockSize(w: nat, h: nat): (n: nat)
    ensures IsBlockSize(n)
  {
    if w % 16 == 0 && h % 16 == 0 then 16 else if w % 8 == 0 && h % 8 == 0 then 8 else 4
  }

  function BlockCode(size: nat): u8 { if size == 4 then 0 else if size == 8 then 1 else 2 }

  function BlockSizeOf(code: u8): (n: nat)
    ensures IsBlockSize(n)
  {
    if code == 0 then 4 else if code == 1 then 8 else 16
  }

  /** One channel, block by block. */
  ghost function Blockwise(t: CosTables, w: nat, h: nat, n: nat, plane: seq<i16>, qp: nat, forward: bool): (r: seq<i16>)
    requires IsBlockSize(n) && |plane| == w * h
    ensures |r| == w * h
  {
    PlaneOut(t, Grid(w, h, n), plane, qp, forward)
  }

  ghost function Coefficients(t: CosTables, w: nat, h: nat, tile: seq<Pixel>, qp: nat): (c: seq<i16>)
    requires |tile| == w * h
    ensures |c| == 3 * (w * h)
  {
    var n := BlockSize(w, h);
    Blockwise(t, w, h, n, Plane(tile, Y), qp, true) + Blockwise(t, w, h, n, Plane(tile, CO), qp, true)
      + Blockwise(t, w, h, n, Plane(tile, CG), qp, true)
  }

  ghost function FromCoefficients(t: CosTables, w: nat, h: nat, n: nat, qp: nat, c: seq<i16>): (tile: seq<Pixel>)
    requires IsBlockSize(n) && |c| == 3 * (w * h)
    ensures |tile| == w * h
  {
    FromPlanes(Blockwise(t, w, h, n, PlaneOf(c, w * h, 0), qp, false),
               Blockwise(t, w, h, n, PlaneOf(c, w * h, 1), qp, false),
               Blockwise(t, w, h, n, PlaneOf(c, w * h, 2), qp, false))
  }

  /** What lossy coding makes of a tile, with the entropy coder taken out. */
  ghost function LossyTile(t: CosTables, w: nat, h: nat, tile: seq<Pixel>, qp: nat): (r: seq<Pixel>)
    requires |tile| == w * h
    ensures |r| == w * h
  {
    FromCoefficients(t, w, h, BlockSize(w, h), qp, Coefficients(t, w, h, tile, qp))
  }

  /** One channel of a tile, there and back. */
  ghost function LossyPlane(t: CosTables, w: nat, h: nat, plane: seq<i16>, qp: nat): (r: seq<i16>)
    requires |plane| == w * h
    ensures |r| == w * h
  {
    var n := BlockSize(w, h);
    Blockwise(t, w, h, n, Blockwise(t, w, h, n, plane, qp, true), qp, false)
  }

  lemma LossyPlaneError(t: CosTables, w: nat, h: nat, tile: seq<Pixel>, ch: Channel, qp: nat, i: nat, e: int)
    requires |tile| == w * h && i < w * h && BlocksLose(t, BlockSize(w, h), qp, e)
    ensures Close(LossyPlane(t, w, h, Plane(tile, ch), qp)[i], Plane(tile, ch)[i], e)
  {
    var plane := Plane(tile, ch);
    PlaneIsNineBit(tile, ch);
    var n := BlockSize(w, h);
    var mid := Blockwise(t, w, h, n, plane, qp, true);
    LossyPlaneNear(t, Grid(w, h, n), plane, qp, mid, LossyPlane(t, w, h, plane, qp), e);
  }

  lemma LossyTileIs(t: CosTables, w: nat, h: nat, tile: seq<Pixel>, qp: nat)
    requires |tile| == w * h
    ensures LossyTile(t, w, h, tile, qp)
         == FromPlanes(LossyPlane(t, w, h, Plane(tile, Y), qp), LossyPlane(t, w, h, Plane(tile, CO), qp),
                       LossyPlane(t, w, h, Plane(tile, CG), qp))
  {
    var n := BlockSize(w, h);
    ThreePlanes(Blockwise(t, w, h, n, Plane(tile, Y), qp, true), Blockwise(t, w, h, n, Plane(tile, CO), qp, true),
                Blockwise(t, w, h, n, Plane(tile, CG), qp, true), w * h);
  }

  /** What lossy coding does to a pixel, given what it does to a block; for tiles cut into 4x4 blocks
      that is FourLose. */
  lemma LossyTileError(t: CosTables, w: nat, h: nat, tile: seq<Pixel>, qp: nat, i: nat, e: int)
    requires |tile| == w * h && i < w * h && BlocksLose(t, BlockSize(w, h), qp, e)
    ensures PixelNear(LossyTile(t, w, h, tile, qp)[i], tile[i], 2 * e + 1)
  {
    LossyTileIs(t, w, h, tile, qp);
    LossyPlaneError(t, w, h, tile, Y, qp, i, e);
    LossyPlaneError(t, w, h, tile, CO, qp, i, e);
    LossyPlaneError(t, w, h, tile, CG, qp, i, e);
    ColorError(tile[i], YCoCg(LossyPlane(t, w, h, Plane(tile, Y), qp)[i], LossyPlane(t, w, h, Plane(tile, CO), qp)[i],
                              LossyPlane(t, w, h, Plane(tile, CG), qp)[i]), e);
  }

  ghost function LossyBytes(t: CosTables, w: nat, h: nat, tile: seq<Pixel>, qp: nat): seq<u8>
    requires |tile| == w * h && FitsSection(w * h)
  {
    var c := Coefficients(t, w, h, tile, qp);
    BitGroup([Bits(BlockCode(BlockSize(w, h)), 2)]) + ([ToU8(qp)] + ValueBytes(c))
  }

  // ---- Reading a tile ----

  /** The 16-bit values behind a one-bit width flag. */
  function ReadValues(r: Reader, shared: Option<seq<nat>>, n: nat): (res: Outcome<seq<i16>>)
    requires ValidShared(shared)
    ensures res.Done? ==> |res.value| == n
  {
    var (flag, r1) := GetBits(r, 1);
    if r1.error then Rejected
    else
      var single := flag != 0;
      var (syms, _) :- ReadResiduals(Align(r1), shared, if single then n else 2 * n);
      Done(ValuesOf(single, syms, n))
  }

  function GetModes(r: Reader): ((u8, u8, u8), Reader)
  {
    var (y, r1) := GetBits(r, 3);
    var (co, r2) := GetBits(r1, 3);
    var (cg, r3) := GetBits(r2, 3);
    ((y, co, cg), r3)
  }

  function KnownModes(codes: (u8, u8, u8)): Outcome<Three<PredMode>>
  {
    match (ModeOf(codes.0), ModeOf(codes.1), ModeOf(codes.2))
    case (Some(a), Some(b), Some(c)) => Done(Three(a, b, c))
    case _ => Unspecified
  }

  /** The number of samples in the three planes of a tile. */
  function Samples(w: nat, h: nat): (n: nat)
    ensures n == 3 * (w * h)
  {
    MulMonotone(0, w, h);
    3 * (w * h)
  }

  /** decodeLossless. */
  function ReadLossless(r: Reader, shared: Option<seq<nat>>, nb: Three<Neighbours>, w: nat, h: nat)
    : (res: Outcome<seq<Pixel>>)
    requires FitAll(nb, w, h) && ValidShared(shared)
    ensures res.Done? ==> |res.value| == w * h
  {
    var (codes, r1) := GetModes(r);
    var vals :- ReadValues(r1, shared, Samples(w, h));
    var m :- KnownModes(codes);
    Done(TileRestored(nb, m, w, h, vals))
  }

  function ReadQuantised(r: Reader, shared: Option<seq<nat>>, n: nat): (res: Outcome<seq<i16>>)
    requires ValidShared(shared)
    ensures res.Done? ==> |res.value| == n
  {
    var (q, r1) := GetU8(r);
    if r1.error || q == 0 then Rejected
    else
      var vals :- ReadValues(r1, shared, n);
      Done(Dequantised(vals, q))
  }

  /** decodeNearLossless. */
  function ReadNearLossless(r: Reader, shared: Option<seq<nat>>, nb: Three<Neighbours>, w: nat, h: nat)
    : (res: Outcome<seq<Pixel>>)
    requires FitAll(nb, w, h) && ValidShared(shared)
    ensures res.Done? ==> |res.value| == w * h
  {
    var (codes, r1) := GetModes(r);
    if r1.error then Rejected
    else
      var vals :- ReadQuantised(r1, shared, Samples(w, h));
      var m :- KnownModes(codes);
      Done(TileRestored(nb, m, w, h, vals))
  }

  /** decodeLossy. */
  ghost function ReadLossy(r: Reader, shared: Option<seq<nat>>, t: CosTables, w: nat, h: nat)
    : (res: Outcome<seq<Pixel>>)
    requires ValidShared(shared)
    ensures res.Done? ==> |res.value| == w * h
  {
    var (code, r1) := GetBits(r, 2);
    if r1.error then Rejected
    else
      var (qp, r2) := GetU8(r1);
      if r2.error then Rejected
      else
        var vals :- ReadValues(r2, shared, Samples(w, h));
        Done(FromCoefficients(t, w, h, BlockSizeOf(code), qp, vals))
  }

  // ---- Round trips ----

  lemma FieldsLegal(m: Three<PredMode>, single: bool)
    ensures AllLegal(ModeFields(m)) && AllLegal([FlagField(single)])
    ensures AllLegal(ModeFields(m) + [FlagField(single)])
  {
    assert Pow2(3) == 8 && Pow2(1) == 2;
  }

  lemma ModesKnown(m: Three<PredMode>)
    ensures KnownModes((ModeCode(m.y), ModeCode(m.co), ModeCode(m.cg))) == Done(m)
  {
  }

  /** The values behind a flag that is part of a bit group already being read. */
  lemma ValuesRead(r: Reader, r1: Reader, vals: seq<int>)
    requires Is16(vals) && FitsValues(|vals|)
    requires GetBits(r, 1) == ((if SingleByte(vals) then 1 else 0), r1) && !r1.error
    requires Has(Align(r1), ResidualBytes(SymbolsOf(vals)))
    ensures ReadValues(r, None, |vals|) == Done(vals)
  {
    ResidualRoundTrip(Align(r1), SymbolsOf(vals));
    SymbolRoundTrip(vals);
  }

  lemma FlagGroup(r: Reader, vals: seq<int>)
    requires Is16(vals) && FitsValues(|vals|)
    requires Has(r, ValueBytes(vals))
    ensures ReadValues(r, None, |vals|) == Done(vals)
  {
    var f := FlagField(SingleByte(vals));
    assert Pow2(1) == 2;
    HasSplit(r, BitGroup([f]), ResidualBytes(SymbolsOf(vals)));
    BitGroupRead(r, [f]);
    OneField(r, f);
    ValuesRead(r, GetBits(r, 1).1, vals);
  }

  lemma OneField(r: Reader, f: Field)
    requires Legal(f)
    ensures GetAll(r, [f]) == ([Get(r, f).0], Get(r, f).1)
  {
    assert [f][1..] == [];
    assert GetAll(Get(r, f).1, []) == ([], Get(r, f).1);
    assert [Get(r, f).0] + [] == [Get(r, f).0];
  }

  lemma FieldStep(r: Reader, f: Field, fs: seq<Field>)
    requires Legal(f) && AllLegal(fs) && AllLegal([f] + fs)
    ensures var (v, r1) := Get(r, f);
      GetAll(r, [f] + fs) == ([v] + GetAll(r1, fs).0, GetAll(r1, fs).1)
  {
    assert ([f] + fs)[1..] == fs;
  }

  lemma ThreeFieldSteps(r: Reader, a: Field, b: Field, c: Field, fs: seq<Field>)
    requires Legal(a) && Legal(b) && Legal(c) && AllLegal(fs) && AllLegal([a] + ([b] + ([c] + fs)))
    ensures var r1 := Get(r, a).1;
      var r2 := Get(r1, b).1;
      var r3 := Get(r2, c).1;
      GetAll(r, [a] + ([b] + ([c] + fs)))
        == ([Get(r, a).0] + ([Get(r1, b).0] + ([Get(r2, c).0] + GetAll(r3, fs).0)), GetAll(r3, fs).1)
  {
    var r1 := Get(r, a).1;
    var r2 := Get(r1, b).1;
    FieldStep(r2, c, fs);
    FieldStep(r1, b, [c] + fs);
    FieldStep(r, a, [b] + ([c] + fs));
  }

  lemma ThreeRead(r: Reader, a: Field, b: Field, c: Field, fs: seq<Field>)
    requires Legal(a) && Legal(b) && Legal(c) && AllLegal(fs) && AllLegal([a] + ([b] + ([c] + fs)))
    requires GetAll(r, [a] + ([b] + ([c] + fs))).0 == [a] + ([b] + ([c] + fs))
    ensures Get(r, a).0 == a && Get(Get(r, a).1, b).0 == b && Get(Get(Get(r, a).1, b).1, c).0 == c
    ensures GetAll(Get(Get(Get(r, a).1, b).1, c).1, fs) == (fs, GetAll(r, [a] + ([b] + ([c] + fs))).1)
  {
    ThreeFieldSteps(r, a, b, c, fs);
    var vs := GetAll(r, [a] + ([b] + ([c] + fs))).0;
    assert vs[0] == a && vs[1] == b && vs[2] == c && vs[3..] == fs;
    assert vs[3..] == GetAll(Get(Get(Get(r, a).1, b).1, c).1, fs).0;
  }

  lemma ModeFieldRead(r: Reader, m: PredMode)
    requires Legal(ModeField(m)) && Get(r, ModeField(m)).0 == ModeField(m)
    ensures GetBits(r, 3) == (ModeCode(m), Get(r, ModeField(m)).1)
  {
  }

  /** Three mode fields, then `more`, read from a group that starts with them. */
  lemma ModesRead(r: Reader, m: Three<PredMode>, more: seq<Field>)
    requires AllLegal(more) && AllLegal(ModeFields(m) + more)
    requires GetAll(r, ModeFields(m) + more).0 == ModeFields(m) + more
    ensures GetModes(r).0 == (ModeCode(m.y), ModeCode(m.co), ModeCode(m.cg))
    ensures GetAll(GetModes(r).1, more) == (more, GetAll(r, ModeFields(m) + more).1)
  {
    var a, b, c := ModeField(m.y), ModeField(m.co), ModeField(m.cg);
    assert Pow2(3) == 8;
    assert ModeFields(m) + more == [a] + ([b] + ([c] + more));
    ThreeRead(r, a, b, c, more);
    var r1 := Get(r, a).1;
    ModeFieldRead(r, m.y);
    ModeFieldRead(r1, m.co);
    ModeFieldRead(Get(r1, b).1, m.cg);
  }

  lemma AlignedU8(r: Reader)
    ensures GetU8(r) == GetU8(Align(r))
  {
  }

  /** A parameter byte and the values behind it, met in the middle of a bit group's last byte. */
  lemma ParameterRead(r: Reader, q: u8, vals: seq<int>)
    requires Is16(vals) && FitsValues(|vals|)
    requires Has(Align(r), [q] + ValueBytes(vals))
    ensures GetU8(r).0 == q && !GetU8(r).1.error && ReadValues(GetU8(r).1, None, |vals|) == Done(vals)
  {
    AlignedU8(r);
    HasSplit(Align(r), [q], ValueBytes(vals));
    U8Read(Align(r), q);
    FlagGroup(Skip(Align(r), 1), vals);
  }

  /** The mode fields alone in a group, with `tail` behind it. */
  lemma ModeGroupRead(r: Reader, m: Three<PredMode>, tail: seq<u8>)
    requires Has(r, BitGroup(ModeFields(m)) + tail)
    ensures GetModes(r).0 == (ModeCode(m.y), ModeCode(m.co), ModeCode(m.cg))
    ensures !GetModes(r).1.error && Has(Align(GetModes(r).1), tail)
  {
    FieldsLegal(m, true);
    HasSplit(r, BitGroup(ModeFields(m)), tail);
    assert ModeFields(m) + [] == ModeFields(m);
    BitGroupRead(r, ModeFields(m));
    ModesRead(r, m, []);
  }

  /** The mode fields and the width flag in one group, with the residual section behind it. */
  lemma LosslessGroupRead(r: Reader, m: Three<PredMode>, vals: seq<int>)
    requires Is16(vals) && FitsValues(|vals|)
    requires Has(r, BitGroup(ModeFields(m) + [FlagField(SingleByte(vals))]) + ResidualBytes(SymbolsOf(vals)))
    ensures GetModes(r).0 == (ModeCode(m.y), ModeCode(m.co), ModeCode(m.cg))
    ensures ReadValues(GetModes(r).1, None, |vals|) == Done(vals)
  {
    FieldsLegal(m, SingleByte(vals));
    var r1 := ModesAndFlagRead(r, m, FlagField(SingleByte(vals)), ResidualBytes(SymbolsOf(vals)));
    FlagRead(GetModes(r).1, r1, vals);
  }

  lemma ModesAndFlagRead(r: Reader, m: Three<PredMode>, flag: Field, tail: seq<u8>) returns (r1: Reader)
    requires flag.Bits? && AllLegal([flag]) && AllLegal(ModeFields(m) + [flag])
    requires Has(r, BitGroup(ModeFields(m) + [flag]) + tail)
    ensures GetModes(r).0 == (ModeCode(m.y), ModeCode(m.co), ModeCode(m.cg))
    ensures GetAll(GetModes(r).1, [flag]) == ([flag], r1) && !r1.error && Has(Align(r1), tail)
  {
    var fs := ModeFields(m) + [flag];
    r1 := GetAll(r, fs).1;
    HasSplit(r, BitGroup(fs), tail);
    BitGroupRead(r, fs);
    ModesRead(r, m, [flag]);
  }

  /** The width flag at the end of a group, with the residual section behind it. */
  lemma FlagRead(r: Reader, r1: Reader, vals: seq<int>)
    requires Is16(vals) && FitsValues(|vals|) && AllLegal([FlagField(SingleByte(vals))]) && !r1.error
    requires GetAll(r, [FlagField(SingleByte(vals))]) == ([FlagField(SingleByte(vals))], r1)
    requires Has(Align(r1), ResidualBytes(SymbolsOf(vals)))
    ensures ReadValues(r, None, |vals|) == Done(vals)
  {
    OneField(r, FlagField(SingleByte(vals)));
    ValuesRead(r, r1, vals);
  }

  lemma LosslessFrom(r: Reader, nb: Three<Neighbours>, w: nat, h: nat, m: Three<PredMode>, vals: seq<int>)
    requires FitAll(nb, w, h) && |vals| == Samples(w, h)
    requires GetModes(r).0 == (ModeCode(m.y), ModeCode(m.co), ModeCode(m.cg))
    requires ReadValues(GetModes(r).1, None, |vals|) == Done(vals)
    ensures ReadLossless(r, None, nb, w, h) == Done(TileRestored(nb, m, w, h, vals))
  {
    ModesKnown(m);
  }

  lemma NearLosslessFrom(r: Reader, nb: Three<Neighbours>, w: nat, h: nat, m: Three<PredMode>, q: u8, vals: seq<int>)
    requires FitAll(nb, w, h) && |vals| == Samples(w, h) && q > 0
    requires GetModes(r).0 == (ModeCode(m.y), ModeCode(m.co), ModeCode(m.cg)) && !GetModes(r).1.error
    requires var (v, r1) := GetU8(GetModes(r).1); v == q && !r1.error && ReadValues(r1, None, |vals|) == Done(vals)
    ensures ReadNearLossless(r, None, nb, w, h) == Done(TileRestored(nb, m, w, h, Dequantised(vals, q)))
  {
    ModesKnown(m);
    assert ReadQuantised(GetModes(r).1, None, |vals|) == Done(Dequantised(vals, q));
  }

  lemma ByteKept(v: nat)
    requires v < 256
    ensures ToU8(v) == v
  {
  }

  lemma LossyFrom(r: Reader, t: CosTables, w: nat, h: nat, code: u8, qp: u8, vals: seq<i16>)
    requires |vals| == Samples(w, h)
    requires GetBits(r, 2).0 == code && !GetBits(r, 2).1.error
    requires var (v, r1) := GetU8(GetBits(r, 2).1); v == qp && !r1.error && ReadValues(r1, None, |vals|) == Done(vals)
    ensures ReadLossy(r, None, t, w, h) == Done(FromCoefficients(t, w, h, BlockSizeOf(code), qp, vals))
  {
  }

  lemma LosslessVia(r: Reader, nb: Three<Neighbours>, w: nat, h: nat, m: Three<PredMode>, vals: seq<int>,
                    goal: seq<Pixel>)
    requires FitAll(nb, w, h) && |vals| == Samples(w, h) && Is16(vals) && FitsValues(|vals|)
    requires Has(r, BitGroup(ModeFields(m) + [FlagField(SingleByte(vals))]) + ResidualBytes(SymbolsOf(vals)))
    requires TileRestored(nb, m, w, h, vals) == goal
    ensures ReadLossless(r, None, nb, w, h) == Done(goal)
  {
    LosslessGroupRead(r, m, vals);
    LosslessFrom(r, nb, w, h, m, vals);
  }

  lemma ThreeFit(n: nat, res: seq<int>)
    requires |res| == 3 * n && FitsSection(n)
    ensures FitsValues(|res|)
  {
  }

  lemma LosslessParts(nb: Three<Neighbours>, w: nat, h: nat, tile: seq<Pixel>, m: Three<PredMode>, res: seq<i16>)
    requires FitAll(nb, w, h) && |tile| == w * h && FitsSection(w * h) && FitsValues(|res|)
    requires res == TileResiduals(nb, m, w, h, tile)
    ensures LosslessBytes(nb, m, w, h, tile)
         == BitGroup(ModeFields(m) + [FlagField(SingleByte(res))]) + ResidualBytes(SymbolsOf(res))
  {
  }

  /** Main result: a lossless tile comes back exactly, alpha made opaque, whatever neighbours
      the two sides share and whichever modes were chosen. */
  lemma LosslessRoundTrip(r: Reader, nb: Three<Neighbours>, m: Three<PredMode>, w: nat, h: nat, tile: seq<Pixel>)
    requires FitAll(nb, w, h) && |tile| == w * h && FitsSection(w * h)
    requires Has(r, LosslessBytes(nb, m, w, h, tile))
    ensures ReadLossless(r, None, nb, w, h) == Done(OpaqueTile(tile))
  {
    var res := TileResiduals(nb, m, w, h, tile);
    ThreeFit(w * h, res);
    LosslessParts(nb, w, h, tile, m, res);
    TileRoundTrip(nb, m, w, h, tile);
    LosslessVia(r, nb, w, h, m, res, OpaqueTile(tile));
  }

  lemma NearGroupRead(r: Reader, m: Three<PredMode>, q: u8, vals: seq<int>)
    requires Is16(vals) && FitsValues(|vals|)
    requires Has(r, BitGroup(ModeFields(m)) + ([q] + ValueBytes(vals)))
    ensures GetModes(r).0 == (ModeCode(m.y), ModeCode(m.co), ModeCode(m.cg)) && !GetModes(r).1.error
    ensures var (v, r1) := GetU8(GetModes(r).1); v == q && !r1.error && ReadValues(r1, None, |vals|) == Done(vals)
  {
    ModeGroupRead(r, m, [q] + ValueBytes(vals));
    ParameterRead(GetModes(r).1, q, vals);
  }

  /** A near-lossless tile is read as its entropy-free reconstruction, whichever modes were chosen. */
  lemma NearLosslessRead(r: Reader, nb: Three<Neighbours>, m: Three<PredMode>, w: nat, h: nat, tile: seq<Pixel>, q: nat)
    requires FitAll(nb, w, h) && |tile| == w * h && FitsSection(w * h) && 1 <= q <= 255
    requires Has(r, NearLosslessBytes(nb, m, w, h, tile, q))
    ensures ReadNearLossless(r, None, nb, w, h) == Done(NearTile(nb, m, w, h, tile, q))
  {
    var res := Quantised(TileResiduals(nb, m, w, h, tile), q);
    var step := ToU8(q);
    ByteKept(q);
    ThreeFit(w * h, res);
    NearGroupRead(r, m, step, res);
    NearLosslessFrom(r, nb, w, h, m, step, res);
    NearTileIsRestored(nb, m, w, h, tile, q);
  }

  /** A lossy tile is read as its entropy-free reconstruction. */
  lemma LossyRead(r: Reader, t: CosTables, w: nat, h: nat, tile: seq<Pixel>, qp: u8)
    requires |tile| == w * h && FitsSection(w * h)
    requires Has(r, LossyBytes(t, w, h, tile, qp))
    ensures ReadLossy(r, None, t, w, h) == Done(LossyTile(t, w, h, tile, qp))
  {
    var c := Coefficients(t, w, h, tile, qp);
    var code := BlockCode(BlockSize(w, h));
    ByteKept(qp);
    ThreeFit(w * h, c);
    LossyGroupRead(r, code, qp, c);
    LossyFrom(r, t, w, h, code, qp, c);
  }

  lemma LossyGroupRead(r: Reader, code: u8, qp: u8, vals: seq<int>)
    requires code < 4 && Is16(vals) && FitsValues(|vals|)
    requires Has(r, BitGroup([Bits(code, 2)]) + ([qp] + ValueBytes(vals)))
    ensures GetBits(r, 2).0 == code && !GetBits(r, 2).1.error
    ensures var (v, r1) := GetU8(GetBits(r, 2).1); v == qp && !r1.error && ReadValues(r1, None, |vals|) == Done(vals)
  {
    var f := Bits(code, 2);
    assert Pow2(2) == 4;
    HasSplit(r, BitGroup([f]), [qp] + ValueBytes(vals));
    BitGroupRead(r, [f]);
    OneField(r, f);
    ParameterRead(GetBits(r, 2).1, qp, vals);
  }

  /** A near-lossless tile whose step is zero is refused, whatever follows. */
  lemma StepZeroRefused(r: Reader, nb: Three<Neighbours>, m: Three<PredMode>, w: nat, h: nat, tail: seq<u8>)
    requires FitAll(nb, w, h) && Has(r, BitGroup(ModeFields(m)) + ([0] + tail))
    ensures ReadNearLossless(r, None, nb, w, h) == Rejected
  {
    ModeGroupRead(r, m, [0] + tail);
    var r1 := GetModes(r).1;
    AlignedU8(r1);
    HasSplit(Align(r1), [0], tail);
    U8Read(Align(r1), 0);
    assert ReadQuantised(r1, None, Samples(w, h)) == Rejected;
  }
}
