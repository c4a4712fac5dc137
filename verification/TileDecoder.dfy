/** The methods of src/codec/omni/tile_decoder.cpp, each against what its tile means. */
module TileDecoding {
  import opened Words
  import opened Arithmetic
  import opened Bitstream
  import opened FrequencyTable
  import opened Rans
  import opened RansCodec
  import opened Residuals
  import opened Predict
  import opened Predictors
  import opened Buffers
  import opened NearLossless
  import opened Frames
  import opened Color
  import opened Blocks
  import opened Tiles

  // ---- Prediction ----

  method InversePrediction(residual: seq<i16>, w: nat, h: nat, mode: PredMode, nb: Neighbours) returns (plane: seq<i16>)
    requires Fit(nb, w, h) && |residual| == w * h
    ensures plane == Restored(mode, nb, w, h, residual)
  {
    var out := new i16[|residual|];
    if mode == LEFT_PIXEL {
      if w > 0 {
        InversePredictLeftPixel(residual, out, w, h);
      }
    } else {
      var predBuf := MakePrediction(mode, nb, w, h);
      ghost var spec := Restored(mode, nb, w, h, residual);
      for i := 0 to w * h
        invariant predBuf[..] == Predicted(mode, nb, w, h)
        invariant Filled(out[..], spec, i)
      {
        ghost var now := out[..];
        FilledStep(now, spec, i);
        var value: int, predicted: int := residual[i], predBuf[i];
        out[i] := ToI16(value + predicted);
        assert out[..] == now[i := spec[i]];
      }
    }
    plane := out[..];
  }

  // ---- Residual section ----

  /** A result and the reader's state after it, against what the bytes mean. */
  ghost predicate Agrees<T>(spec: Outcome<(T, Reader)>, res: Outcome<T>, r: Reader)
  {
    match spec
    case Done(p) => res == Done(p.0) && r == p.1
    case Rejected => res.Rejected?
    case Unspecified => res.Unspecified?
  }

  method DecodeUniform(bs: BitstreamReader, total: nat) returns (res: Outcome<seq<u8>>)
    requires bs.Valid()
    modifies bs
    ensures bs.Valid() && Agrees(ReadUniform(old(bs.Value()), total), res, bs.Value())
  {
    var sym := bs.ReadU8();
    var symCount := bs.ReadU32();
    if bs.error || symCount != total {
      return Rejected;
    }
    res := Done(seq(total, i => sym));
  }

  lemma EntriesUnfold(r: Reader, n: nat, freqs: seq<nat>)
    requires n > 0 && |freqs| == 256
    ensures ReadEntries(r, n, freqs)
         == var (sym, r1) := GetU8(r);
            var (f, r2) := GetU16(r1);
            if r2.error then Rejected else ReadEntries(r2, n - 1, freqs[sym := f])
  {
  }

  /** The loop over the table entries. */
  method DecodeEntries(bs: BitstreamReader, numNonZero: nat) returns (res: Outcome<seq<nat>>)
    requires bs.Valid()
    modifies bs
    ensures bs.Valid() && (res.Done? ==> |res.value| == 256)
    ensures Agrees(ReadEntries(old(bs.Value()), numNonZero, seq(256, i => 0)), res, bs.Value())
  {
    ghost var whole := ReadEntries(bs.Value(), numNonZero, seq(256, i => 0));
    var freqTable: seq<nat> := seq(256, i => 0);
    ghost var r := bs.Value();
    for i := 0 to numNonZero
      invariant bs.Valid() && bs.Value() == r && |freqTable| == 256
      invariant ReadEntries(r, numNonZero - i, freqTable) == whole
    {
      EntriesUnfold(r, numNonZero - i, freqTable);
      var sym := bs.ReadU8();
      var freq := bs.ReadU16();
      freqTable := freqTable[sym := freq];
      r := bs.Value();
      if bs.error {
        return Rejected;
      }
    }
    res := Done(freqTable);
  }

  /** Rebuilds the cumulative frequencies; they fit sixteen bits. */
  method Cumulated(freqs: seq<nat>) returns (table: seq<RansSymbol>)
    requires |freqs| == 256 && Sum(freqs) <= 4096
    ensures |table| == 256 && Freqs(table) == freqs
    ensures forall i :: 0 <= i < 256 ==> table[i].cumFreq == Sum(freqs[..i])
  {
    var freqTable := new RansSymbol[256](_ => RansSymbol(0, 0, 0));
    var cumFreq: u16 := 0;
    for i := 0 to 256
      invariant cumFreq == Sum(freqs[..i])
      invariant forall k :: 0 <= k < i ==> IsEntry(freqTable[k], freqs, k)
    {
      PrefixFits(freqs, i);
      freqTable[i] := RansSymbol(freqs[i], cumFreq, 0);
      cumFreq := ToU16(cumFreq + freqs[i]);
    }
    table := freqTable[..];
    forall i | 0 <= i < 256
      ensures IsEntry(table[i], freqs, i)
    {
      assert table[i] == freqTable[i];
    }
  }

  ghost predicate IsEntry(s: RansSymbol, freqs: seq<nat>, i: nat)
    requires i < |freqs|
  {
    s.freq == freqs[i] && s.cumFreq == Sum(freqs[..i])
  }

  lemma PrefixFits(freqs: seq<nat>, i: nat)
    requires i < |freqs| && Sum(freqs) <= 4096
    ensures Sum(freqs[..i + 1]) == Sum(freqs[..i]) + freqs[i] <= 4096
  {
    SumStep(freqs, i);
    SumMonotone(freqs, i + 1, |freqs|);
    assert freqs[..|freqs|] == freqs;
  }

  /** The decode table is that of the shared frequencies, or there is none. */
  ghost predicate SharedIs(dt: Option<array<DecodeEntry>>, shared: Option<seq<nat>>)
    reads if dt.Some? then {dt.value} else {}
  {
    && ValidShared(shared) && dt.Some? == shared.Some?
    && (dt.Some? ==> dt.value.Length == 4096 && dt.value[..] == DecodeTableOf(shared.value))
  }

  /** The decode table of given frequencies. */
  method DecodeTableFor(freqs: seq<nat>) returns (decodeTable: array<DecodeEntry>)
    requires |freqs| == 256 && Sum(freqs) <= 4096
    ensures fresh(decodeTable) && decodeTable.Length == 4096 && decodeTable[..] == DecodeTableOf(freqs)
  {
    var freqTable := Cumulated(freqs);
    decodeTable := BuildDecodeTable(freqTable);
  }

  /** Size, count and rANS bytes against a decode table: decodeResidualsShared. */
  method DecodePayload(bs: BitstreamReader, decodeTable: array<DecodeEntry>, ghost freqs: seq<nat>, total: nat)
    returns (res: Outcome<seq<u8>>)
    requires bs.Valid() && |freqs| == 256 && Sum(freqs) <= 4096
    requires decodeTable.Length == 4096 && decodeTable[..] == DecodeTableOf(freqs)
    modifies bs
    ensures bs.Valid() && Agrees(ReadPayload(old(bs.Value()), freqs, total), res, bs.Value())
  {
    var ransSize := bs.ReadU32();
    var symCount := bs.ReadU32();
    if bs.error || symCount != total {
      return Rejected;
    }
    var ransData := bs.ReadBytes(ransSize);
    if ransData == None {
      return Rejected;
    }
    res := Unranked(ransData.value, decodeTable, total);
  }

  /** decodeInterleaved into a symbol buffer of the right size. */
  method Unranked(data: seq<u8>, decodeTable: array<DecodeEntry>, total: nat) returns (res: Outcome<seq<u8>>)
    requires decodeTable.Length == 4096
    ensures res == Decoded(4, data, decodeTable[..], total)
  {
    var symbolBuf := new u8[total];
    var ransDecoder := new RansDecoder();
    var ok := ransDecoder.DecodeInterleaved(data, decodeTable, total, symbolBuf);
    match ok
    case Done(_) => res := Done(symbolBuf[..total]);
    case Rejected => res := Rejected;
    case Unspecified => res := Unspecified;
  }

  method DecodeResiduals(bs: BitstreamReader, dt: Option<array<DecodeEntry>>, ghost shared: Option<seq<nat>>,
                         total: nat)
    returns (res: Outcome<seq<u8>>)
    requires bs.Valid() && SharedIs(dt, shared)
    modifies bs
    ensures bs.Valid() && (res.Done? ==> |res.value| == total)
    ensures Agrees(ReadResiduals(old(bs.Value()), shared, total), res, bs.Value())
  {
    if dt.Some? {
      res := DecodePayload(bs, dt.value, shared.value, total);
      return;
    }
    var numNonZero := bs.ReadU16();
    if bs.error {
      return Rejected;
    }
    if numNonZero == 0 {
      res := DecodeUniform(bs, total);
      return;
    }
    var freqs := DecodeFrequencies(bs, numNonZero);
    if !freqs.Done? {
      return if freqs.Rejected? then Rejected else Unspecified;
    }
    var decodeTable := DecodeTableFor(freqs.value);
    res := DecodePayload(bs, decodeTable, freqs.value, total);
  }

  /** The entries of a table, and whether they fit a decode table. */
  method DecodeFrequencies(bs: BitstreamReader, n: nat) returns (res: Outcome<seq<nat>>)
    requires bs.Valid()
    modifies bs
    ensures bs.Valid() && Agrees(ReadFrequencies(old(bs.Value()), n), res, bs.Value())
    ensures res.Done? ==> |res.value| == 256 && Sum(res.value) <= 4096
  {
    var entries := DecodeEntries(bs, n);
    if !entries.Done? {
      return if entries.Rejected? then Rejected else Unspecified;
    }
    var sum := SumAll(entries.value);
    if sum > 4096 {
      return Unspecified;
    }
    res := Done(entries.value);
  }

  method SumAll(freqs: seq<nat>) returns (sum: nat)
    ensures sum == Sum(freqs)
  {
    sum := 0;
    for i := 0 to |freqs|
      invariant sum == Sum(freqs[..i])
    {
      SumStep(freqs, i);
      sum := sum + freqs[i];
    }
    assert freqs[..|freqs|] == freqs;
  }

  // ---- Symbols back to values ----

  method Unpack(symbolBuf: seq<u8>, singleByte: bool, n: nat) returns (vals: seq<i16>)
    requires |symbolBuf| == if singleByte then n else 2 * n
    ensures vals == ValuesOf(singleByte, symbolBuf, n)
  {
    var residualBuf := new i16[n];
    if singleByte {
      for i := 0 to n
        invariant forall k :: 0 <= k < i ==> residualBuf[k] == ToI8(symbolBuf[k])
      {
        residualBuf[i] := ToI8(symbolBuf[i]);
      }
    } else {
      var si := 0;
      for i := 0 to n
        invariant si == 2 * i
        invariant forall k :: 0 <= k < i ==> residualBuf[k] == ToI16(FromBe16(symbolBuf[2 * k + 1], symbolBuf[2 * k]))
      {
        var lo: int, hi: int := symbolBuf[si], symbolBuf[si + 1];
        residualBuf[i] := ToI16(lo + hi * 0x100);
        si := si + 2;
      }
    }
    vals := residualBuf[..];
  }

  /** The part the three tile methods share: flag, symbols, values. */
  method DecodeValues(bs: BitstreamReader, dt: Option<array<DecodeEntry>>, ghost shared: Option<seq<nat>>, n: nat)
    returns (res: Outcome<seq<i16>>)
    requires bs.Valid() && SharedIs(dt, shared)
    modifies bs
    ensures bs.Valid() && res == ReadValues(old(bs.Value()), shared, n)
  {
    var flag := bs.ReadBits(1);
    if bs.error {
      return Rejected;
    }
    var singleByte := flag != 0;
    var totalSymbols := if singleByte then n else 2 * n;
    bs.AlignToByte();
    var symbols := DecodeResiduals(bs, dt, shared, totalSymbols);
    if !symbols.Done? {
      return if symbols.Rejected? then Rejected else Unspecified;
    }
    var vals := Unpack(symbols.value, singleByte, n);
    res := Done(vals);
  }

  method Dequantise(vals: seq<i16>, qStep: nat) returns (res: seq<i16>)
    ensures res == Dequantised(vals, qStep)
  {
    var buf := new i16[|vals|];
    for i := 0 to |vals|
      invariant forall k :: 0 <= k < i ==> buf[k] == ToI16(vals[k] * qStep)
    {
      buf[i] := ToI16(vals[i] * qStep);
    }
    res := buf[..];
  }

  method DecodeModes(bs: BitstreamReader) returns (codes: (u8, u8, u8))
    requires bs.Valid()
    modifies bs
    ensures bs.Valid() && (codes, bs.Value()) == GetModes(old(bs.Value()))
  {
    var y := bs.ReadBits(3);
    var co := bs.ReadBits(3);
    var cg := bs.ReadBits(3);
    codes := (y, co, cg);
  }

  /** Inverse prediction and colour transform of the three channels. */
  method Restore(vals: seq<i16>, w: nat, h: nat, m: Three<PredMode>, nb: Three<Neighbours>)
    returns (planes: Three<seq<i16>>)
    requires FitAll(nb, w, h) && |vals| == 3 * (w * h)
    ensures planes.y == Restored(m.y, nb.y, w, h, PlaneOf(vals, w * h, 0))
    ensures planes.co == Restored(m.co, nb.co, w, h, PlaneOf(vals, w * h, 1))
    ensures planes.cg == Restored(m.cg, nb.cg, w, h, PlaneOf(vals, w * h, 2))
  {
    MulMonotone(0, w, h);
    var n := w * h;
    var y := InversePrediction(vals[0..n], w, h, m.y, nb.y);
    var co := InversePrediction(vals[n..2 * n], w, h, m.co, nb.co);
    var cg := InversePrediction(vals[2 * n..3 * n], w, h, m.cg, nb.cg);
    planes := Three(y, co, cg);
  }

  // ---- Tiles ----

  /** A tile that decodes is painted; otherwise the frame stays as it was. */
  ghost predicate Painted(before: seq<Pixel>, after: seq<Pixel>, g: Grid, b: Box, spec: Outcome<seq<Pixel>>,
                          res: Outcome<()>)
    requires |before| == g.Area() && Inside(b, g) && (spec.Done? ==> |spec.value| == b.w * b.h)
  {
    && (res.Done? <==> spec.Done?) && (res.Rejected? <==> spec.Rejected?)
    && after == if spec.Done? then Paint(before, g, b, spec.value) else before
  }

  /** The last two steps of the lossless forms. */
  method PaintRestored(vals: seq<i16>, codes: (u8, u8, u8), nb: Three<Neighbours>, out: array<Pixel>, ghost g: Grid,
                       b: Box, stride: nat) returns (res: Outcome<()>)
    requires out.Length == g.Area() && Inside(b, g) && stride == g.width
    requires FitAll(nb, b.w, b.h) && |vals| == 3 * (b.w * b.h)
    modifies out
    ensures var m := KnownModes(codes);
      if m.Done? then res.Done? && out[..] == Paint(old(out[..]), g, b, TileRestored(nb, m.value, b.w, b.h, vals))
      else res.Unspecified? && out[..] == old(out[..])
  {
    var m := KnownModes(codes);
    if !m.Done? {
      return Unspecified;
    }
    var planes := Restore(vals, b.w, b.h, m.value, nb);
    YCoCgRToBgra(planes.y, planes.co, planes.cg, g, b, stride, out);
    res := Done(());
  }

  method DecodeLossless(bs: BitstreamReader, dt: Option<array<DecodeEntry>>, ghost shared: Option<seq<nat>>,
                        nb: Three<Neighbours>, out: array<Pixel>, ghost g: Grid, b: Box, stride: nat)
    returns (res: Outcome<()>)
    requires SharedIs(dt, shared)
    requires bs.Valid() && out.Length == g.Area() && Inside(b, g) && stride == g.width && FitAll(nb, b.w, b.h)
    modifies bs, out
    ensures bs.Valid()
    ensures Painted(old(out[..]), out[..], g, b, ReadLossless(old(bs.Value()), shared, nb, b.w, b.h), res)
  {
    var codes := DecodeModes(bs);
    var vals := DecodeValues(bs, dt, shared, Samples(b.w, b.h));
    if !vals.Done? {
      return if vals.Rejected? then Rejected else Unspecified;
    }
    res := PaintRestored(vals.value, codes, nb, out, g, b, stride);
  }

  method DecodeQuantised(bs: BitstreamReader, dt: Option<array<DecodeEntry>>, ghost shared: Option<seq<nat>>, n: nat)
    returns (res: Outcome<seq<i16>>)
    requires bs.Valid() && SharedIs(dt, shared)
    modifies bs
    ensures bs.Valid() && res == ReadQuantised(old(bs.Value()), shared, n)
  {
    bs.AlignToByte();
    var qStep := bs.ReadU8();
    if bs.error || qStep == 0 {
      return Rejected;
    }
    var vals := DecodeValues(bs, dt, shared, n);
    if !vals.Done? {
      return if vals.Rejected? then Rejected else Unspecified;
    }
    var restored := Dequantise(vals.value, qStep);
    res := Done(restored);
  }

  method DecodeNearLossless(bs: BitstreamReader, dt: Option<array<DecodeEntry>>, ghost shared: Option<seq<nat>>,
                            nb: Three<Neighbours>, out: array<Pixel>, ghost g: Grid, b: Box, stride: nat)
    returns (res: Outcome<()>)
    requires SharedIs(dt, shared)
    requires bs.Valid() && out.Length == g.Area() && Inside(b, g) && stride == g.width && FitAll(nb, b.w, b.h)
    modifies bs, out
    ensures bs.Valid()
    ensures Painted(old(out[..]), out[..], g, b, ReadNearLossless(old(bs.Value()), shared, nb, b.w, b.h), res)
  {
    var codes := DecodeModes(bs);
    if bs.error {
      return Rejected;
    }
    var vals := DecodeQuantised(bs, dt, shared, Samples(b.w, b.h));
    if !vals.Done? {
      return if vals.Rejected? then Rejected else Unspecified;
    }
    res := PaintRestored(vals.value, codes, nb, out, g, b, stride);
  }

  method RestoredChannel(plane: seq<i16>, t: CosTables, w: nat, h: nat, blockSize: nat, qp: nat) returns (r: seq<i16>)
    requires IsBlockSize(blockSize) && |plane| == w * h
    ensures r == Blockwise(t, w, h, blockSize, plane, qp, false)
  {
    var ch := new i16[|plane|](i requires 0 <= i < |plane| => plane[i]);
    assert ch[..] == plane;
    TransformPlane(ch, t, Grid(w, h, blockSize), qp, false);
    r := ch[..];
  }

  method PaintTransformed(t: CosTables, vals: seq<i16>, blockSize: nat, qp: nat, out: array<Pixel>, ghost g: Grid,
                          b: Box, stride: nat)
    requires IsBlockSize(blockSize)
    requires out.Length == g.Area() && Inside(b, g) && stride == g.width && |vals| == 3 * (b.w * b.h)
    modifies out
    ensures out[..] == Paint(old(out[..]), g, b, FromCoefficients(t, b.w, b.h, blockSize, qp, vals))
  {
    MulMonotone(0, b.w, b.h);
    var n := b.w * b.h;
    var y := RestoredChannel(PlaneOf(vals, n, 0), t, b.w, b.h, blockSize, qp);
    var co := RestoredChannel(PlaneOf(vals, n, 1), t, b.w, b.h, blockSize, qp);
    var cg := RestoredChannel(PlaneOf(vals, n, 2), t, b.w, b.h, blockSize, qp);
    YCoCgRToBgra(y, co, cg, g, b, stride, out);
  }

  /** Block size, quantisation parameter and coefficients of a lossy tile. */
  function ReadCoefficients(r: Reader, shared: Option<seq<nat>>, n: nat): (res: Outcome<(nat, u8, seq<i16>)>)
    requires ValidShared(shared)
    ensures res.Done? ==> |res.value.2| == n && IsBlockSize(res.value.0)
  {
    var (head, r1) := ReadParameters(r);
    if head == None then Rejected
    else
      var vals :- ReadValues(r1, shared, n);
      Done((head.value.0, head.value.1, vals))
  }

  /** Block size and quantiser. */
  function ReadParameters(r: Reader): (res: (Option<(nat, u8)>, Reader))
    ensures res.0.Some? ==> IsBlockSize(res.0.value.0)
  {
    var (code, r1) := GetBits(r, 2);
    if r1.error then (None, r1)
    else
      var (qp, r2) := GetU8(r1);
      (if r2.error then None else Some((BlockSizeOf(code), qp)), r2)
  }

  lemma LossyUnfold(r: Reader, shared: Option<seq<nat>>, t: CosTables, w: nat, h: nat)
    requires ValidShared(shared)
    ensures ReadLossy(r, shared, t, w, h)
         == match ReadCoefficients(r, shared, Samples(w, h))
            case Done(c) => Done(FromCoefficients(t, w, h, c.0, c.1, c.2))
            case Rejected => Rejected
            case Unspecified => Unspecified
  {
  }

  method DecodeCoefficients(bs: BitstreamReader, dt: Option<array<DecodeEntry>>, ghost shared: Option<seq<nat>>, n: nat)
    returns (res: Outcome<(nat, u8, seq<i16>)>)
    requires bs.Valid() && SharedIs(dt, shared)
    modifies bs
    ensures bs.Valid() && res == ReadCoefficients(old(bs.Value()), shared, n)
  {
    var head := DecodeParameters(bs);
    if head == None {
      return Rejected;
    }
    var vals := DecodeValues(bs, dt, shared, n);
    if !vals.Done? {
      return if vals.Rejected? then Rejected else Unspecified;
    }
    res := Done((head.value.0, head.value.1, vals.value));
  }

  method DecodeParameters(bs: BitstreamReader) returns (head: Option<(nat, u8)>)
    requires bs.Valid()
    modifies bs
    ensures bs.Valid() && (head, bs.Value()) == ReadParameters(old(bs.Value()))
  {
    var bsCode := bs.ReadBits(2);
    var blockSize := if bsCode == 0 then 4 else if bsCode == 1 then 8 else 16;
    if bs.error {
      return None;
    }
    AlignedU8(bs.Value());
    bs.AlignToByte();
    var qp := bs.ReadU8();
    head := if bs.error then None else Some((blockSize, qp));
  }

  method DecodeLossy(bs: BitstreamReader, dt: Option<array<DecodeEntry>>, ghost shared: Option<seq<nat>>, t: CosTables,
                     out: array<Pixel>, ghost g: Grid, b: Box, stride: nat)
    returns (res: Outcome<()>)
    requires SharedIs(dt, shared)
    requires bs.Valid() && out.Length == g.Area() && Inside(b, g) && stride == g.width
    modifies bs, out
    ensures bs.Valid()
    ensures Painted(old(out[..]), out[..], g, b, ReadLossy(old(bs.Value()), shared, t, b.w, b.h), res)
  {
    LossyUnfold(bs.Value(), shared, t, b.w, b.h);
    var c := DecodeCoefficients(bs, dt, shared, Samples(b.w, b.h));
    if !c.Done? {
      return if c.Rejected? then Rejected else Unspecified;
    }
    PaintTransformed(t, c.value.2, c.value.0, c.value.1, out, g, b, stride);
    res := Done(());
  }
}
