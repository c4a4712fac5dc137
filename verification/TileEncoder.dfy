/** The methods of src/codec/omni/tile_encoder.cpp, each against the bytes of its tile. */
module TileEncoding {
  import opened Words
  import opened Arithmetic
  import opened Bitstream
  import opened FrequencyTable
  import opened Rans
  import opened RansCodec
  import opened Residuals
  import opened Predict
  import opened Predictors
  import opened Buffers
  import opened NearLossless
  import opened Frames
  import opened Color
  import opened Blocks
  import opened Tiles

  const UINT64_MAX: nat := 0xFFFF_FFFF_FFFF_FFFF

  // ---- Prediction mode ----

  lemma {:induction false} SumAbsBound(s: seq<int>, bound: nat)
    requires forall i :: 0 <= i < |s| ==> Abs(s[i]) <= bound
    ensures SumAbs(s) <= |s| * bound
  {
    if s != [] {
      var front := s[..|s| - 1];
      SumAbsBound(front, bound);
      assert |s| * bound == |front| * bound + bound;
    }
  }

  /** No sum of differences reaches the starting value of the search. */
  lemma CostBounded(m: PredMode, nb: Neighbours, w: nat, h: nat, src: seq<i16>)
    requires Fit(nb, w, h) && |src| == w * h < 0x1_0000_0000
    ensures Cost(m, nb, w, h, src) < UINT64_MAX
  {
    var d := if m == LEFT_PIXEL then LeftResidual(src, w) else Difference(src, Predicted(m, nb, w, h));
    SumAbsBound(d, 0xFFFF);
  }

  /** The cost of one candidate, kept if it improves on the best so far. */
  method Try(m: PredMode, nb: Neighbours, w: nat, h: nat, src: seq<i16>, best: PredMode, bestSAD: nat)
    returns (mode: PredMode, sad: nat)
    requires Fit(nb, w, h) && |src| == w * h
    ensures if Cost(m, nb, w, h, src) < bestSAD then mode == m && sad == Cost(m, nb, w, h, src)
            else mode == best && sad == bestSAD
  {
    if m == LEFT_PIXEL {
      var predBuf := new i16[|src|];
      PredictLeftPixel(src, predBuf, w, h);
      sad := SumMagnitudes(predBuf[..]);
    } else {
      var predBuf := MakePrediction(m, nb, w, h);
      sad := ComputeSAD(src, predBuf[..]);
    }
    mode := m;
    if sad >= bestSAD {
      mode, sad := best, bestSAD;
    }
  }

  method SelectPredMode(src: seq<i16>, w: nat, h: nat, nb: Neighbours) returns (mode: PredMode)
    requires Fit(nb, w, h) && |src| == w * h < 0x1_0000_0000
    ensures mode == SelectMode(nb, w, h, src)
  {
    if nb.top == None && nb.left == None {
      mode := SelectAlone(src, w, h, nb);
      return;
    }
    CostBounded(DC, nb, w, h, src);
    var bestMode, bestSAD := Try(DC, nb, w, h, src, LEFT_PIXEL, UINT64_MAX);
    if nb.left.Some? {
      bestMode, bestSAD := Try(HORIZONTAL, nb, w, h, src, bestMode, bestSAD);
    }
    if nb.top.Some? {
      bestMode, bestSAD := Try(VERTICAL, nb, w, h, src, bestMode, bestSAD);
    }
    if nb.top.Some? && nb.left.Some? {
      bestMode, bestSAD := Try(PLANAR, nb, w, h, src, bestMode, bestSAD);
    }
    mode, bestSAD := Try(LEFT_PIXEL, nb, w, h, src, bestMode, bestSAD);
  }

  lemma AloneCost(w: nat, h: nat, src: seq<i16>, nb: Neighbours)
    requires |src| == w * h && nb.top == None && nb.left == None
    ensures Cost(DC, nb, w, h, src) == SumAbs(src)
  {
    assert Difference(src, Predicted(DC, nb, w, h)) == src;
  }

  /** The fast path without neighbours: DC predicts zero. */
  method SelectAlone(src: seq<i16>, w: nat, h: nat, nb: Neighbours) returns (mode: PredMode)
    requires |src| == w * h && nb.top == None && nb.left == None
    ensures mode == SelectMode(nb, w, h, src)
  {
    var zeroSAD := SumMagnitudes(src);
    var predBuf := new i16[|src|];
    PredictLeftPixel(src, predBuf, w, h);
    var leftSAD := SumMagnitudes(predBuf[..]);
    mode := if leftSAD < zeroSAD then LEFT_PIXEL else DC;
    AloneCost(w, h, src, nb);
  }

  method ApplyPrediction(src: seq<i16>, residual: array<i16>, w: nat, h: nat, mode: PredMode, nb: Neighbours)
    requires Fit(nb, w, h) && |src| == w * h == residual.Length
    modifies residual
    ensures residual[..] == Residual(mode, nb, w, h, src)
  {
    if mode == LEFT_PIXEL {
      PredictLeftPixel(src, residual, w, h);
      return;
    }
    var predBuf := MakePrediction(mode, nb, w, h);
    ghost var spec := Residual(mode, nb, w, h, src);
    for i := 0 to w * h
      invariant predBuf[..] == Predicted(mode, nb, w, h)
      invariant Filled(residual[..], spec, i)
    {
      ghost var now := residual[..];
      FilledStep(now, spec, i);
      var value: int, predicted: int := src[i], predBuf[i];
      residual[i] := ToI16(value - predicted);
      assert residual[..] == now[i := spec[i]];
    }
  }

  // ---- Residual section ----

  method CountSymbols(symbols: seq<u8>) returns (counts: array<nat>)
    ensures fresh(counts) && counts[..] == Histogram(symbols)
  {
    counts := new nat[256](_ => 0);
    for i := 0 to |symbols|
      invariant forall v :: 0 <= v < 256 ==> counts[v] == Count(symbols[..i], v)
    {
      assert symbols[..i + 1][..i] == symbols[..i];
      counts[symbols[i]] := counts[symbols[i]] + 1;
    }
    assert symbols[..|symbols|] == symbols;
  }

  lemma TwoCounts(symbols: seq<u8>, a: nat, b: nat)
    requires a != b && Count(symbols, a) > 0 && Count(symbols, b) > 0
    ensures !AllAlike(symbols)
  {
    CountPositive(symbols, a);
    CountPositive(symbols, b);
    var i :| 0 <= i < |symbols| && symbols[i] == a;
    var j :| 0 <= j < |symbols| && symbols[j] == b;
  }

  lemma OneCount(symbols: seq<u8>, a: nat)
    requires forall v :: 0 <= v < 256 && v != a ==> Count(symbols, v) == 0
    ensures AllAlike(symbols) && (symbols != [] ==> symbols[0] == a)
  {
    forall i | 0 <= i < |symbols|
      ensures symbols[i] == a
    {
      CountPositive(symbols, symbols[i]);
    }
  }

  /** Looks for a second symbol; stops there. */
  method FindUnique(counts: array<nat>, ghost symbols: seq<u8>) returns (uniqueCount: nat, uniqueSym: u8)
    requires counts[..] == Histogram(symbols)
    ensures uniqueCount <= 1 <==> AllAlike(symbols)
    ensures AllAlike(symbols) ==> uniqueSym == if symbols == [] then 0 else symbols[0]
  {
    uniqueCount, uniqueSym := 0, 0;
    assert forall v :: 0 <= v < 256 ==> counts[v] == Count(symbols, v);
    for i := 0 to 256
      invariant uniqueCount <= 1
      invariant uniqueCount == 0 ==> uniqueSym == 0
      invariant uniqueCount == 1 ==> uniqueSym < i && counts[uniqueSym] > 0
      invariant forall v :: 0 <= v < i && (uniqueCount == 1 ==> v != uniqueSym) ==> counts[v] == 0
    {
      if counts[i] > 0 {
        if uniqueCount == 1 {
          TwoCounts(symbols, uniqueSym, i);
          uniqueCount, uniqueSym := 2, i;
          return;
        }
        uniqueCount, uniqueSym := 1, i;
      }
    }
    OneCount(symbols, uniqueSym);
    if symbols != [] {
      CountPositive(symbols, uniqueSym);
    }
  }

  lemma PutTwice(w: Writer, a: seq<u8>, b: seq<u8>)
    ensures PutBytes(PutBytes(w, a), b) == PutBytes(w, a + b)
  {
    assert Flush(w).buf + a + b == Flush(w).buf + (a + b);
  }

  method CountNonZero(table: seq<RansSymbol>) returns (numNonZero: nat)
    requires ValidTable(table)
    ensures numNonZero == NonZeroFrom(Freqs(table), 0)
  {
    ghost var freqs := Freqs(table);
    numNonZero := 0;
    for i := 0 to 256
      invariant numNonZero + NonZeroFrom(freqs, i) == NonZeroFrom(freqs, 0)
    {
      if table[i].freq > 0 {
        numNonZero := numNonZero + 1;
      }
    }
  }

  lemma EntriesStep(freqs: seq<nat>, i: nat, written: seq<u8>)
    requires |freqs| == 256 && i < 256
    ensures freqs[i] == 0 ==> written + EntryBytes(freqs, i) == written + EntryBytes(freqs, i + 1)
    ensures freqs[i] > 0 ==>
      written + EntryBytes(freqs, i) == (written + ([i] + Be16(ToU16(freqs[i])))) + EntryBytes(freqs, i + 1)
  {
    if freqs[i] > 0 {
      var entry := [i] + Be16(ToU16(freqs[i]));
      assert written + (entry + EntryBytes(freqs, i + 1)) == (written + entry) + EntryBytes(freqs, i + 1);
    } else {
      assert [] + EntryBytes(freqs, i + 1) == EntryBytes(freqs, i + 1);
    }
  }

  /** One turn of the loop over the symbols. */
  method WriteIfUsed(sym: u8, freq: nat, bs: BitstreamWriter, ghost freqs: seq<nat>, ghost w: Writer,
                     ghost written: seq<u8>)
    returns (ghost next: seq<u8>)
    requires |freqs| == 256 && freqs[sym] == freq && bs.Valid() && bs.Value() == PutBytes(w, written)
    modifies bs
    ensures bs.Valid() && bs.Value() == PutBytes(w, next)
    ensures next + EntryBytes(freqs, sym + 1) == written + EntryBytes(freqs, sym)
  {
    EntriesStep(freqs, sym, written);
    next := written;
    if freq > 0 {
      WriteEntry(sym, freq, bs);
      ghost var entry := [sym] + Be16(ToU16(freq));
      PutTwice(w, written, entry);
      next := written + entry;
    }
  }

  method WriteTable(table: seq<RansSymbol>, bs: BitstreamWriter)
    requires ValidTable(table) && bs.Valid()
    modifies bs
    ensures bs.Valid()
    ensures bs.Value() == PutBytes(old(bs.Value()), Be16(NonZeroFrom(Freqs(table), 0)) + EntryBytes(Freqs(table), 0))
  {
    ghost var w, goal := bs.Value(), Be16(NonZeroFrom(Freqs(table), 0)) + EntryBytes(Freqs(table), 0);
    var numNonZero := CountNonZero(table);
    bs.WriteU16(numNonZero);
    ghost var written: seq<u8> := Be16(numNonZero);
    for i := 0 to 256
      invariant bs.Valid() && bs.Value() == PutBytes(w, written)
      invariant written + EntryBytes(Freqs(table), i) == goal
    {
      written := WriteIfUsed(i, table[i].freq, bs, Freqs(table), w, written);
    }
    assert written + [] == written;
  }

  method WriteEntry(sym: u8, freq: nat, bs: BitstreamWriter)
    requires bs.Valid()
    modifies bs
    ensures bs.Valid() && bs.Value() == PutBytes(old(bs.Value()), [sym] + Be16(ToU16(freq)))
  {
    ghost var w := bs.Value();
    bs.WriteU8(sym);
    bs.WriteU16(ToU16(freq));
    PutTwice(w, [sym], Be16(ToU16(freq)));
  }

  lemma CountsAreWords(symbols: seq<u8>)
    requires |symbols| <= MAX_SYMBOLS
    ensures forall v :: 0 <= v < 256 ==> 0 <= Histogram(symbols)[v] <= 0xFFFF_FFFF
  {
    forall v | 0 <= v < 256
      ensures Histogram(symbols)[v] <= 0xFFFF_FFFF
    {
      CountPositive(symbols, v);
    }
  }

  /** buildFrequencyTableInPlace on the counts of the symbols. */
  method TableFor(counts: array<nat>, ghost symbols: seq<u8>) returns (table: seq<RansSymbol>)
    requires |symbols| <= MAX_SYMBOLS && counts[..] == Histogram(symbols)
    ensures table == TableOf(symbols)
  {
    CountsAreWords(symbols);
    var words: seq<u32> := counts[..];
    var freqTable := new RansSymbol[256](_ => RansSymbol(0, 0, 0));
    BuildFreqTableCore(words, freqTable);
    table := freqTable[..];
  }

  method WriteUniform(sym: u8, total: u32, bs: BitstreamWriter)
    requires bs.Valid()
    modifies bs
    ensures bs.Valid() && bs.Value() == PutBytes(old(bs.Value()), UniformSection(sym, total))
  {
    ghost var w := bs.Value();
    bs.WriteU16(0);
    bs.WriteU8(sym);
    bs.WriteU32(total);
    PutTwice(w, Be16(0), [sym]);
    PutTwice(w, Be16(0) + [sym], Be32(total));
    assert Be16(0) + [sym] + Be32(total) == UniformSection(sym, total);
  }

  method WritePayload(data: seq<u8>, total: u32, bs: BitstreamWriter)
    requires bs.Valid() && |data| < 0x1_0000_0000
    modifies bs
    ensures bs.Valid() && bs.Value() == PutBytes(old(bs.Value()), Be32(|data|) + (Be32(total) + data))
  {
    ghost var w := bs.Value();
    bs.WriteU32(|data|);
    bs.WriteU32(total);
    bs.WriteBytes(data);
    PutTwice(w, Be32(|data|), Be32(total));
    PutTwice(w, Be32(|data|) + Be32(total), data);
    assert Be32(|data|) + Be32(total) + data == Be32(|data|) + (Be32(total) + data);
  }

  // ---- Symbols ----

  method FitsOneByte(vals: seq<i16>) returns (singleByte: bool)
    ensures singleByte == SingleByte(vals)
  {
    singleByte := true;
    var i := 0;
    while i < |vals| && singleByte
      invariant 0 <= i <= |vals|
      invariant singleByte <==> forall k :: 0 <= k < i ==> -128 <= vals[k] <= 127
    {
      if vals[i] < -128 || vals[i] > 127 {
        singleByte := false;
      }
      i := i + 1;
    }
  }

  method PackNarrow(vals: seq<i16>) returns (symbolBuf: array<u8>)
    ensures fresh(symbolBuf) && symbolBuf[..] == Narrow(vals)
  {
    symbolBuf := new u8[|vals|];
    for i := 0 to |vals|
      invariant forall k :: 0 <= k < i ==> symbolBuf[k] == ToU8(vals[k])
    {
      symbolBuf[i] := ToU8(vals[i]);
    }
  }

  /** Positions 2i and 2i + 1 hold the halves of value i. */
  lemma WideStep(vals: seq<i16>, s: seq<u8>, i: nat)
    requires i < |vals| && Filled(s, Wide(vals), 2 * i)
    ensures Filled(s[2 * i := Half(vals[i], 0)][2 * i + 1 := Half(vals[i], 1)], Wide(vals), 2 * (i + 1))
  {
    WideAt(vals, i);
  }

  method PackWide(vals: seq<i16>) returns (symbolBuf: array<u8>)
    ensures fresh(symbolBuf) && symbolBuf[..] == Wide(vals)
  {
    symbolBuf := new u8[2 * |vals|];
    var si := 0;
    for i := 0 to |vals|
      invariant si == 2 * i && Filled(symbolBuf[..], Wide(vals), si)
    {
      ghost var now := symbolBuf[..];
      WideStep(vals, now, i);
      var u := ToU16(vals[i]);
      symbolBuf[si] := u % 0x100;
      symbolBuf[si + 1] := u / 0x100;
      ghost var half: seq<u8> := now[2 * i := Half(vals[i], 0)];
      assert symbolBuf[..] == half[2 * i + 1 := Half(vals[i], 1)];
      si := si + 2;
    }
  }

  method Pack(vals: seq<i16>, singleByte: bool) returns (symbols: seq<u8>)
    requires singleByte == SingleByte(vals)
    ensures symbols == SymbolsOf(vals)
  {
    var symbolBuf: array<u8>;
    if singleByte {
      symbolBuf := PackNarrow(vals);
    } else {
      symbolBuf := PackWide(vals);
    }
    symbols := symbolBuf[..];
  }

  // ---- Residuals of the three channels ----

  method PredictChannels(planes: Three<seq<i16>>, nb: Three<Neighbours>, w: nat, h: nat)
    returns (modes: Three<PredMode>, residuals: seq<i16>)
    requires FitAll(nb, w, h) && |planes.y| == |planes.co| == |planes.cg| == w * h < 0x1_0000_0000
    ensures modes.y == SelectMode(nb.y, w, h, planes.y) && modes.co == SelectMode(nb.co, w, h, planes.co)
    ensures modes.cg == SelectMode(nb.cg, w, h, planes.cg)
    ensures residuals == Residual(modes.y, nb.y, w, h, planes.y) + Residual(modes.co, nb.co, w, h, planes.co)
                           + Residual(modes.cg, nb.cg, w, h, planes.cg)
  {
    var yMode := SelectPredMode(planes.y, w, h, nb.y);
    var coMode := SelectPredMode(planes.co, w, h, nb.co);
    var cgMode := SelectPredMode(planes.cg, w, h, nb.cg);
    var yRes := OneResidual(planes.y, w, h, yMode, nb.y);
    var coRes := OneResidual(planes.co, w, h, coMode, nb.co);
    var cgRes := OneResidual(planes.cg, w, h, cgMode, nb.cg);
    modes, residuals := Three(yMode, coMode, cgMode), yRes + coRes + cgRes;
  }

  method OneResidual(src: seq<i16>, w: nat, h: nat, mode: PredMode, nb: Neighbours) returns (res: seq<i16>)
    requires Fit(nb, w, h) && |src| == w * h
    ensures res == Residual(mode, nb, w, h, src)
  {
    var residualBuf := new i16[|src|];
    ApplyPrediction(src, residualBuf, w, h, mode, nb);
    res := residualBuf[..];
  }

  method PlanesOf(frame: seq<Pixel>, ghost g: Grid, b: Box, stride: nat) returns (planes: Three<seq<i16>>)
    requires |frame| == g.Area() && Inside(b, g) && stride == g.width
    ensures var tile := Cut(frame, g, b);
      planes.y == Plane(tile, Y) && planes.co == Plane(tile, CO) && planes.cg == Plane(tile, CG)
  {
    MulMonotone(0, b.w, b.h);
    var yBuf, coBuf, cgBuf := new i16[b.w * b.h], new i16[b.w * b.h], new i16[b.w * b.h];
    BgraToYCoCgR(frame, g, b, stride, yBuf, coBuf, cgBuf);
    planes := Three(yBuf[..], coBuf[..], cgBuf[..]);
  }

  ghost predicate CodedAs(nb: Three<Neighbours>, w: nat, h: nat, tile: seq<Pixel>, m: Three<PredMode>, res: seq<i16>)
  {
    FitAll(nb, w, h) && |tile| == w * h && m == Modes(nb, w, h, tile) && res == TileResiduals(nb, m, w, h, tile)
  }

  /** Colour transform, mode choice and prediction of one tile. */
  method Channels(frame: seq<Pixel>, ghost g: Grid, b: Box, stride: nat, nb: Three<Neighbours>)
    returns (modes: Three<PredMode>, residuals: seq<i16>)
    requires |frame| == g.Area() && Inside(b, g) && stride == g.width
    requires FitAll(nb, b.w, b.h) && b.w * b.h < 0x1_0000_0000
    ensures CodedAs(nb, b.w, b.h, Cut(frame, g, b), modes, residuals)
  {
    var planes := PlanesOf(frame, g, b, stride);
    modes, residuals := PredictChannels(planes, nb, b.w, b.h);
  }

  /** The loops over the blocks of one channel. */
  method TransformedChannel(plane: seq<i16>, t: CosTables, w: nat, h: nat, blockSize: nat, qp: nat)
    returns (r: seq<i16>)
    requires IsBlockSize(blockSize) && |plane| == w * h
    ensures r == Blockwise(t, w, h, blockSize, plane, qp, true)
  {
    var ch := new i16[|plane|](i requires 0 <= i < |plane| => plane[i]);
    assert ch[..] == plane;
    TransformPlane(ch, t, Grid(w, h, blockSize), qp, true);
    r := ch[..];
  }

  method Transformed(frame: seq<Pixel>, ghost g: Grid, b: Box, stride: nat, t: CosTables, blockSize: nat, qp: nat)
    returns (coefficients: seq<i16>)
    requires |frame| == g.Area() && Inside(b, g) && stride == g.width && blockSize == BlockSize(b.w, b.h)
    ensures coefficients == Coefficients(t, b.w, b.h, Cut(frame, g, b), qp)
  {
    var planes := PlanesOf(frame, g, b, stride);
    var y := TransformedChannel(planes.y, t, b.w, b.h, blockSize, qp);
    var co := TransformedChannel(planes.co, t, b.w, b.h, blockSize, qp);
    var cg := TransformedChannel(planes.cg, t, b.w, b.h, blockSize, qp);
    coefficients := y + co + cg;
  }

  /** Rounds half away from zero. */
  method QuantiseOne(r: i16, qStep: nat) returns (q: i16)
    requires qStep > 0
    ensures q == ToI16(Quantise(r, qStep))
  {
    var v: int := r;
    if v >= 0 {
      q := ToI16((v + qStep / 2) / qStep);
    } else {
      q := ToI16(-((-v + qStep / 2) / qStep));
    }
  }

  method QuantiseAll(residuals: seq<i16>, qStep: nat) returns (quantised: seq<i16>)
    requires qStep > 0
    ensures quantised == Quantised(residuals, qStep)
  {
    var res := new i16[|residuals|];
    for i := 0 to |residuals|
      invariant forall k :: 0 <= k < i ==> res[k] == ToI16(Quantise(residuals[k], qStep))
    {
      res[i] := QuantiseOne(residuals[i], qStep);
    }
    quantised := res[..];
  }

  // ---- What each tile method appends to a stream ----

  ghost function LosslessPut(w: Writer, nb: Three<Neighbours>, bw: nat, bh: nat, tile: seq<Pixel>): Writer
    requires FitAll(nb, bw, bh) && |tile| == bw * bh && FitsSection(bw * bh)
  {
    var m := Modes(nb, bw, bh, tile);
    var res := TileResiduals(nb, m, bw, bh, tile);
    ExactPut(w, m, res)
  }

  ghost function ExactPut(w: Writer, m: Three<PredMode>, res: seq<int>): Writer
    requires FitsValues(|res|)
  {
    PutBytes(PutAll(w, ModeFields(m) + [FlagField(SingleByte(res))]), ResidualBytes(SymbolsOf(res)))
  }

  ghost function QuantisedPut(w: Writer, m: Three<PredMode>, res: seq<int>, q: nat): Writer
    requires FitsValues(|res|)
  {
    ValuePut(PutBytes(PutAll(w, ModeFields(m)), [ToU8(q)]), res)
  }

  ghost function ValuePut(w: Writer, vals: seq<int>): Writer
    requires FitsValues(|vals|)
  {
    PutBytes(PutAll(w, [FlagField(SingleByte(vals))]), ResidualBytes(SymbolsOf(vals)))
  }

  ghost function NearLosslessPut(w: Writer, nb: Three<Neighbours>, bw: nat, bh: nat, tile: seq<Pixel>, q: nat): Writer
    requires FitAll(nb, bw, bh) && |tile| == bw * bh && FitsSection(bw * bh) && q > 0
  {
    var m := Modes(nb, bw, bh, tile);
    var res := Quantised(TileResiduals(nb, m, bw, bh, tile), q);
    QuantisedPut(w, m, res, q)
  }

  lemma LosslessPutIs(w: Writer, nb: Three<Neighbours>, bw: nat, bh: nat, tile: seq<Pixel>, m: Three<PredMode>,
                      res: seq<i16>)
    requires CodedAs(nb, bw, bh, tile, m, res) && FitsSection(bw * bh) && FitsValues(|res|)
    ensures LosslessPut(w, nb, bw, bh, tile) == ExactPut(w, m, res)
  {
  }

  lemma NearLosslessPutIs(w: Writer, nb: Three<Neighbours>, bw: nat, bh: nat, tile: seq<Pixel>, m: Three<PredMode>,
                          res: seq<i16>, q: nat)
    requires CodedAs(nb, bw, bh, tile, m, res) && FitsSection(bw * bh) && FitsValues(|res|) && q > 0
    ensures NearLosslessPut(w, nb, bw, bh, tile, q) == QuantisedPut(w, m, Quantised(res, q), q)
  {
  }

  lemma LosslessFromScratch(nb: Three<Neighbours>, bw: nat, bh: nat, tile: seq<Pixel>)
    requires FitAll(nb, bw, bh) && |tile| == bw * bh && FitsSection(bw * bh)
    ensures LosslessPut(EMPTY_WRITER, nb, bw, bh, tile)
          == Writer(LosslessBytes(nb, Modes(nb, bw, bh, tile), bw, bh, tile), [])
  {
  }

  ghost function LossyPut(w: Writer, t: CosTables, bw: nat, bh: nat, tile: seq<Pixel>, qp: nat): Writer
    requires |tile| == bw * bh && FitsSection(bw * bh)
  {
    ValuePut(PutBytes(PutAll(w, [Bits(BlockCode(BlockSize(bw, bh)), 2)]), [ToU8(qp)]),
             Coefficients(t, bw, bh, tile, qp))
  }

  lemma ValuesBehind(buf: seq<u8>, vals: seq<int>)
    requires FitsValues(|vals|)
    ensures ValuePut(Writer(buf, []), vals) == Writer(buf + ValueBytes(vals), [])
  {
    BitsBehind(buf, [FlagField(SingleByte(vals))], ResidualBytes(SymbolsOf(vals)));
  }

  lemma BitsBehind(buf: seq<u8>, fs: seq<Field>, s: seq<u8>)
    requires forall f :: f in fs ==> f.Bits?
    ensures PutBytes(PutAll(Writer(buf, []), fs), s) == Writer(buf + (BitGroup(fs) + s), [])
  {
    var w := PutAll(EMPTY_WRITER, fs);
    PutAllPrefix(buf, EMPTY_WRITER, fs);
    assert buf + EMPTY_WRITER.buf == buf;
    FlushBehind(buf, w);
    Regroup(buf, Flush(w).buf, s);
  }

  lemma FlushBehind(buf: seq<u8>, w: Writer)
    ensures Flush(Writer(buf + w.buf, w.pending)).buf == buf + Flush(w).buf
  {
  }

  lemma NearLosslessFromScratch(nb: Three<Neighbours>, bw: nat, bh: nat, tile: seq<Pixel>, q: nat)
    requires FitAll(nb, bw, bh) && |tile| == bw * bh && FitsSection(bw * bh) && q > 0
    ensures NearLosslessPut(EMPTY_WRITER, nb, bw, bh, tile, q)
          == Writer(NearLosslessBytes(nb, Modes(nb, bw, bh, tile), bw, bh, tile, q), [])
  {
    var m := Modes(nb, bw, bh, tile);
    var res := TileResiduals(nb, m, bw, bh, tile);
    ThreeFit(bw * bh, res);
    NearLosslessPutIs(EMPTY_WRITER, nb, bw, bh, tile, m, res, q);
    BehindGroup(ModeFields(m), ToU8(q), Quantised(res, q));
  }

  lemma BehindGroup(fs: seq<Field>, q: u8, vals: seq<int>)
    requires FitsValues(|vals|)
    ensures ValuePut(PutBytes(PutAll(EMPTY_WRITER, fs), [q]), vals)
          == Writer(BitGroup(fs) + ([q] + ValueBytes(vals)), [])
  {
    ValuesBehind(BitGroup(fs) + [q], vals);
    assert BitGroup(fs) + [q] + ValueBytes(vals) == BitGroup(fs) + ([q] + ValueBytes(vals));
  }

  lemma LossyFromScratch(t: CosTables, bw: nat, bh: nat, tile: seq<Pixel>, qp: nat)
    requires |tile| == bw * bh && FitsSection(bw * bh)
    ensures LossyPut(EMPTY_WRITER, t, bw, bh, tile, qp) == Writer(LossyBytes(t, bw, bh, tile, qp), [])
  {
    var fs, vals := [Bits(BlockCode(BlockSize(bw, bh)), 2)], Coefficients(t, bw, bh, tile, qp);
    ThreeFit(bw * bh, vals);
    LossyPutIs(t, bw, bh, tile, qp, fs, vals);
    BehindGroup(fs, ToU8(qp), vals);
  }

  lemma LossyPutIs(t: CosTables, bw: nat, bh: nat, tile: seq<Pixel>, qp: nat, fs: seq<Field>, vals: seq<i16>)
    requires |tile| == bw * bh && FitsSection(bw * bh) && FitsValues(|vals|)
    requires fs == [Bits(BlockCode(BlockSize(bw, bh)), 2)] && vals == Coefficients(t, bw, bh, tile, qp)
    ensures LossyPut(EMPTY_WRITER, t, bw, bh, tile, qp)
         == ValuePut(PutBytes(PutAll(EMPTY_WRITER, fs), [ToU8(qp)]), vals)
    ensures LossyBytes(t, bw, bh, tile, qp) == BitGroup(fs) + ([ToU8(qp)] + ValueBytes(vals))
  {
  }

  /** Three bit fields written one after another. */
  method WriteModes(m: Three<PredMode>, bs: BitstreamWriter)
    requires bs.Valid()
    modifies bs
    ensures bs.Valid() && bs.Value() == PutAll(old(bs.Value()), ModeFields(m))
  {
    ghost var w := bs.Value();
    bs.WriteBits(ModeCode(m.y), 3);
    ghost var w1 := bs.Value();
    bs.WriteBits(ModeCode(m.co), 3);
    ghost var w2 := bs.Value();
    bs.WriteBits(ModeCode(m.cg), 3);
    ThreeFields(w, ModeField(m.y), ModeField(m.co), ModeField(m.cg));
  }

  lemma OneFieldPut(w: Writer, a: Field)
    ensures PutAll(w, [a]) == Put(w, a)
  {
    assert [a][1..] == [];
  }

  lemma ThreeFields(w: Writer, a: Field, b: Field, c: Field)
    ensures PutAll(w, [a, b, c]) == Put(Put(Put(w, a), b), c)
  {
    OneFieldPut(Put(Put(w, a), b), c);
    assert [b, c][1..] == [c];
    assert [a, b, c][1..] == [b, c];
    assert PutAll(Put(w, a), [b, c]) == PutAll(Put(Put(w, a), b), [c]);
  }

  lemma {:induction false} PutAllSplit(w: Writer, a: seq<Field>, b: seq<Field>)
    ensures PutAll(w, a + b) == PutAll(PutAll(w, a), b)
    decreases |a|
  {
    if a == [] {
      assert a + b == b;
    } else {
      PutAllSplit(Put(w, a[0]), a[1..], b);
      assert (a + b)[1..] == a[1..] + b;
    }
  }

  method WriteFlag(singleByte: bool, bs: BitstreamWriter)
    requires bs.Valid()
    modifies bs
    ensures bs.Valid() && bs.Value() == PutAll(old(bs.Value()), [FlagField(singleByte)])
  {
    OneFieldPut(bs.Value(), FlagField(singleByte));
    bs.WriteBits(if singleByte then 1 else 0, 1);
  }

  class TileEncoder {
    const rans: RansEncoder

    constructor ()
      ensures fresh(rans) && fresh(rans.stack)
    {
      rans := new RansEncoder();
    }

    method EncodeResiduals(symbols: seq<u8>, bs: BitstreamWriter)
      requires |symbols| <= MAX_SYMBOLS && bs.Valid()
      modifies bs, rans, rans.stack
      ensures rans.stack == old(rans.stack) || fresh(rans.stack)
      ensures bs.Valid() && bs.Value() == PutBytes(old(bs.Value()), ResidualBytes(symbols))
    {
      ghost var w := bs.Value();
      var counts := CountSymbols(symbols);
      var uniqueCount, uniqueSym := FindUnique(counts, symbols);
      bs.FlushBits();
      if uniqueCount <= 1 {
        WriteUniform(uniqueSym, |symbols|, bs);
        return;
      }
      var table := TableFor(counts, symbols);
      WriteTable(table, bs);
      ghost var front := Be16(NonZeroFrom(Freqs(table), 0)) + EntryBytes(Freqs(table), 0);
      assert bs.Value() == PutBytes(w, front);
      var ransData := rans.EncodeInterleaved(symbols, table);
      EncodedFits(symbols, table);
      WritePayload(ransData, |symbols|, bs);
      SectionParts(w, Freqs(table), ransData, |symbols|, front);
    }

    /** The flag, the symbols and their section. */
    method EncodeValues(vals: seq<i16>, bs: BitstreamWriter)
      requires FitsValues(|vals|) && bs.Valid()
      modifies bs, rans, rans.stack
      ensures rans.stack == old(rans.stack) || fresh(rans.stack)
      ensures bs.Valid() && bs.Value() == ValuePut(old(bs.Value()), vals)
    {
      var singleByte := FitsOneByte(vals);
      WriteFlag(singleByte, bs);
      var symbols := Pack(vals, singleByte);
      EncodeResiduals(symbols, bs);
    }

    method SendExact(modes: Three<PredMode>, residuals: seq<i16>, bs: BitstreamWriter)
      requires FitsValues(|residuals|) && bs.Valid()
      modifies bs, rans, rans.stack
      ensures rans.stack == old(rans.stack) || fresh(rans.stack)
      ensures bs.Valid()
      ensures bs.Value() == ExactPut(old(bs.Value()), modes, residuals)
    {
      PutAllSplit(bs.Value(), ModeFields(modes), [FlagField(SingleByte(residuals))]);
      WriteModes(modes, bs);
      EncodeValues(residuals, bs);
    }

    method SendQuantised(modes: Three<PredMode>, quantised: seq<i16>, qStep: nat, bs: BitstreamWriter)
      requires FitsValues(|quantised|) && bs.Valid()
      modifies bs, rans, rans.stack
      ensures rans.stack == old(rans.stack) || fresh(rans.stack)
      ensures bs.Valid()
      ensures bs.Value() == QuantisedPut(old(bs.Value()), modes, quantised, qStep)
    {
      WriteModes(modes, bs);
      bs.FlushBits();
      bs.WriteU8(ToU8(qStep));
      EncodeValues(quantised, bs);
    }

    /** The tile is the box b of the frame. */
    method EncodeLossless(frame: seq<Pixel>, ghost g: Grid, b: Box, stride: nat, nb: Three<Neighbours>,
                          bs: BitstreamWriter)
      requires |frame| == g.Area() && Inside(b, g) && stride == g.width
      requires FitAll(nb, b.w, b.h) && FitsSection(b.w * b.h) && bs.Valid()
      modifies bs, rans, rans.stack
      ensures rans.stack == old(rans.stack) || fresh(rans.stack)
      ensures bs.Valid() && bs.Value() == LosslessPut(old(bs.Value()), nb, b.w, b.h, Cut(frame, g, b))
    {
      var modes, residuals := Channels(frame, g, b, stride, nb);
      ThreeFit(b.w * b.h, residuals);
      LosslessPutIs(bs.Value(), nb, b.w, b.h, Cut(frame, g, b), modes, residuals);
      SendExact(modes, residuals, bs);
    }

    method EncodeNearLossless(frame: seq<Pixel>, ghost g: Grid, b: Box, stride: nat, nb: Three<Neighbours>,
                              maxError: int, bs: BitstreamWriter)
      requires |frame| == g.Area() && Inside(b, g) && stride == g.width
      requires FitAll(nb, b.w, b.h) && FitsSection(b.w * b.h) && bs.Valid()
      modifies bs, rans, rans.stack
      ensures rans.stack == old(rans.stack) || fresh(rans.stack)
      ensures bs.Valid()
      ensures bs.Value() == NearLosslessPut(old(bs.Value()), nb, b.w, b.h, Cut(frame, g, b), Max(1, maxError))
    {
      var modes, residuals := Channels(frame, g, b, stride, nb);
      var qStep := Max(1, maxError);
      ThreeFit(b.w * b.h, residuals);
      NearLosslessPutIs(bs.Value(), nb, b.w, b.h, Cut(frame, g, b), modes, residuals, qStep);
      var quantised := QuantiseAll(residuals, qStep);
      SendQuantised(modes, quantised, qStep, bs);
    }

    method EncodeLossy(frame: seq<Pixel>, ghost g: Grid, b: Box, stride: nat, qp: nat, t: CosTables,
                       bs: BitstreamWriter)
      requires |frame| == g.Area() && Inside(b, g) && stride == g.width
      requires FitsSection(b.w * b.h) && bs.Valid()
      modifies bs, rans, rans.stack
      ensures rans.stack == old(rans.stack) || fresh(rans.stack)
      ensures bs.Valid() && bs.Value() == LossyPut(old(bs.Value()), t, b.w, b.h, Cut(frame, g, b), qp)
    {
      var blockSize := BlockSize(b.w, b.h);
      OneFieldPut(bs.Value(), Bits(BlockCode(blockSize), 2));
      bs.WriteBits(BlockCode(blockSize), 2);
      bs.FlushBits();
      var coefficients := Transformed(frame, g, b, stride, t, blockSize, qp);
      bs.WriteU8(ToU8(qp));
      EncodeValues(coefficients, bs);
    }
  }

  lemma SectionParts(w: Writer, freqs: seq<nat>, data: seq<u8>, total: u32, front: seq<u8>)
    requires |freqs| == 256 && |data| < 0x1_0000_0000
    requires front == Be16(NonZeroFrom(freqs, 0)) + EntryBytes(freqs, 0)
    ensures PutBytes(PutBytes(w, front), Be32(|data|) + (Be32(total) + data))
          == PutBytes(w, TableSection(freqs, data, total))
  {
    var entries, rest := EntryBytes(freqs, 0), Be32(|data|) + (Be32(total) + data);
    PutTwice(w, front, rest);
    Regroup(Be16(NonZeroFrom(freqs, 0)), entries, rest);
  }
}