/** OmniCodecDecoder, src/codec/omni/omni_decoder.cpp:16-307: one packet in two passes over
    the tiles, against the one-pass meaning of a packet. */
module OmniDecoding {
  import opened Words
  import opened Arithmetic
  import opened Bitstream
  import opened FrequencyTable
  import Rans
  import opened Residuals
  import opened Frames
  import opened Blocks
  import opened Tiles
  import opened FrameHeader
  import opened OmniFormat
  import opened TileDecoding
  import DecodedTiles

  // ---- Lists read one entry at a time ----

  /** The entries read so far, in front of the rest. */
  function After<T>(front: seq<T>, rest: Outcome<(seq<T>, Reader)>): Outcome<(seq<T>, Reader)>
  {
    if rest.Done? then Done((front + rest.value.0, rest.value.1)) else rest
  }

  lemma AfterNothing<T>(rest: Outcome<(seq<T>, Reader)>)
    ensures After([], rest) == rest
  {
    if rest.Done? {
      assert [] + rest.value.0 == rest.value.0;
    }
  }

  lemma AfterOne<T>(front: seq<T>, x: T, rest: Outcome<(seq<T>, Reader)>)
    ensures After(front, After([x], rest)) == After(front + [x], rest)
  {
    if rest.Done? {
      assert front + ([x] + rest.value.0) == front + [x] + rest.value.0;
    }
  }

  lemma AfterAll<T>(front: seq<T>, r: Reader)
    ensures After(front, Done(([], r))) == Done((front, r))
  {
    assert front + [] == front;
  }

  function GetMode(r: Reader): (u8, Reader) { GetBits(r, 3) }

  lemma CodesStart(r: Reader, n: nat)
    ensures After<u8>([], ReadCodes(r, n)) == ReadCodes(r, n)
  {
    AfterNothing<u8>(ReadCodes(r, n));
  }

  lemma CodesStep(front: seq<u8>, r: Reader, n: nat, mode: u8, r1: Reader)
    requires GetMode(r) == (mode, r1)
    ensures After<u8>(front, ReadCodes(r, n + 1))
          == if r1.error then Rejected else After<u8>(front + [mode], ReadCodes(r1, n))
  {
    assert ReadCodes(r, n + 1) == if r1.error then Rejected else After<u8>([mode], ReadCodes(r1, n));
    AfterOne<u8>(front, mode, ReadCodes(r1, n));
  }

  method ReadMode(bs: BitstreamReader, ghost front: seq<u8>, ghost left: nat) returns (ok: bool, mode: u8)
    requires bs.Valid()
    modifies bs
    ensures bs.Valid()
    ensures After<u8>(front, ReadCodes(old(bs.Value()), left + 1))
         == if ok then After<u8>(front + [mode], ReadCodes(bs.Value(), left)) else Rejected
  {
    ghost var r := bs.Value();
    mode := bs.ReadBits(3);
    CodesStep(front, r, left, mode, bs.Value());
    ok := !bs.error;
  }

  method ReadModes(bs: BitstreamReader, numTiles: nat) returns (ok: bool, tileModes: seq<u8>)
    requires bs.Valid()
    modifies bs
    ensures bs.Valid() && (ok ==> |tileModes| == numTiles)
    ensures After<u8>([], ReadCodes(old(bs.Value()), numTiles))
         == if ok then After<u8>(tileModes, ReadCodes(bs.Value(), 0)) else Rejected
  {
    ok, tileModes := true, [];
    ghost var left, whole := numTiles, After<u8>([], ReadCodes(bs.Value(), numTiles));
    ghost var rest := whole;
    for i := 0 to numTiles
      invariant bs.Valid() && |tileModes| == i && left == numTiles - i
      invariant rest == After<u8>(tileModes, ReadCodes(bs.Value(), left)) && rest == whole
    {
      ghost var m: nat := left - 1;
      var mode;
      ok, mode := ReadMode(bs, tileModes, m);
      if !ok {
        return;
      }
      tileModes, left := tileModes + [mode], m;
    }
    ok := true;
  }

  lemma CodesEnd(front: seq<u8>, r: Reader)
    ensures After<u8>(front, ReadCodes(r, 0)) == Done((front, r))
  {
    AfterAll<u8>(front, r);
  }

  method ReadModeMap(bs: BitstreamReader, numTiles: nat) returns (res: Outcome<seq<u8>>)
    requires bs.Valid()
    modifies bs
    ensures bs.Valid() && (res.Done? ==> |res.value| == numTiles)
    ensures Agrees(ReadCodes(old(bs.Value()), numTiles), res, bs.Value())
  {
    CodesStart(bs.Value(), numTiles);
    var ok, tileModes := ReadModes(bs, numTiles);
    if !ok {
      return Rejected;
    }
    CodesEnd(tileModes, bs.Value());
    res := Done(tileModes);
  }

  lemma SizesStep(front: seq<nat>, r: Reader, n: nat, size: nat, r1: Reader)
    requires n > 0 && GetU32(r) == (size, r1)
    ensures After(front, ReadSizes(r, n)) == if r1.error then Rejected else After(front + [size], ReadSizes(r1, n - 1))
  {
    assert ReadSizes(r, n) == if r1.error then Rejected else After([size], ReadSizes(r1, n - 1));
    AfterOne(front, size, ReadSizes(r1, n - 1));
  }

  method ReadSizeTable(bs: BitstreamReader, n: nat) returns (res: Outcome<seq<nat>>)
    requires bs.Valid()
    modifies bs
    ensures bs.Valid() && (res.Done? ==> |res.value| == n)
    ensures Agrees(ReadSizes(old(bs.Value()), n), res, bs.Value())
  {
    var tileSizes: seq<nat> := [];
    ghost var r, left, whole := bs.Value(), n, ReadSizes(bs.Value(), n);
    AfterNothing(whole);
    for i := 0 to n
      invariant bs.Valid() && bs.Value() == r && |tileSizes| == i && left == n - i
      invariant After(tileSizes, ReadSizes(r, left)) == whole
    {
      var size := bs.ReadU32();
      SizesStep(tileSizes, r, left, size, bs.Value());
      if bs.error {
        return Rejected;
      }
      tileSizes := tileSizes + [size];
      r, left := bs.Value(), left - 1;
    }
    AfterAll(tileSizes, r);
    res := Done(tileSizes);
  }

  // ---- Pass 1: skipped and copied tiles ----

  lemma RepeatedAt(d: DecoderState, g: Grid, b: Box, code: nat, mv: (int, int), row: nat, col: nat, idx: int)
    requires |d.ref| == g.Area() && Inside(b, g) && row < b.h && col < b.w && idx == row * b.w + col
    ensures 0 <= idx < b.w * b.h && 0 <= (b.y + row) * g.width + (b.x + col) < g.Area()
    ensures RepeatedTile(d, g, b, code, mv)[idx]
         == if !d.hasRef then BLACK
            else if code == 0 then d.ref[(b.y + row) * g.width + (b.x + col)]
            else CopiedPixel(d.ref, g, b, mv.0, mv.1, row, col)
  {
    PixelInRow(g, b, row, col, idx, (b.y + row) * g.width + (b.x + col));
  }

  /** The pixel a row of the source's loops writes. */
  method RepeatedPixel(ref: seq<Pixel>, hasRef: bool, g: Grid, b: Box, code: nat, mv: (int, int), row: nat, col: nat,
                       ghost d: DecoderState)
    returns (p: Pixel)
    requires |ref| == g.Area() && d.ref == ref && d.hasRef == hasRef
    requires Inside(b, g) && row < b.h && col < b.w
    ensures 0 <= row * b.w + col < b.w * b.h && p == RepeatedTile(d, g, b, code, mv)[row * b.w + col]
  {
    RepeatedAt(d, g, b, code, mv, row, col, row * b.w + col);
    if !hasRef {
      p := BLACK;
    } else if code == 0 {
      p := ref[(b.y + row) * g.width + (b.x + col)];
    } else {
      var srcY, srcX := b.y + row + mv.1, b.x + mv.0;
      if srcY >= 0 && srcY < g.height && srcX >= 0 && srcX + b.w <= g.width {
        Position(g.width, g.height, srcY, srcX + col);
        p := ref[srcY * g.width + (srcX + col)];
      } else {
        p := BLACK;
      }
    }
  }

  method PaintRepeated(ref: seq<Pixel>, hasRef: bool, g: Grid, b: Box, code: nat, mv: (int, int), out: array<Pixel>,
                       ghost d: DecoderState)
    requires |ref| == g.Area() == out.Length && d.ref == ref && d.hasRef == hasRef
    requires Inside(b, g)
    modifies out
    ensures out[..] == Paint(old(out[..]), g, b, RepeatedTile(d, g, b, code, mv))
  {
    ghost var before, tile := out[..], RepeatedTile(d, g, b, code, mv);
    PartStart(before, g, b, tile);
    for row := 0 to b.h
      invariant Part(before, out[..], g, b, tile, row, 0)
    {
      for col := 0 to b.w
        invariant Part(before, out[..], g, b, tile, row, col)
      {
        ghost var now := out[..];
        var at := (b.y + row) * g.width + (b.x + col);
        PartStep(before, now, g, b, tile, row, col, row * b.w + col, at);
        out[at] := RepeatedPixel(ref, hasRef, g, b, code, mv, row, col, d);
        assert out[..] == now[at := tile[row * b.w + col]];
      }
      PartRow(before, out[..], g, b, tile, row);
    }
    PartDone(before, out[..], g, b, tile);
  }

  /** Tile t of the frame shows `tile`. */
  ghost predicate Shows(frame: seq<Pixel>, g: Grid, t: nat, tile: seq<Pixel>)
    requires g.tileSize > 0 && t < g.NumTiles() && |frame| == g.Area()
  {
    TileBoxInside(g, t);
    Cut(frame, g, TileBox(g, t)) == tile
  }

  lemma PaintShows(frame: seq<Pixel>, g: Grid, t: nat, tile: seq<Pixel>)
    requires g.tileSize > 0 && t < g.NumTiles() && |frame| == g.Area() && |tile| == TileArea(g, t)
    ensures Inside(TileBox(g, t), g)
    ensures Shows(Paint(frame, g, TileBox(g, t), tile), g, t, tile)
  {
    TileBoxInside(g, t);
    CutPaintSame(frame, g, TileBox(g, t), tile);
  }

  /** Painting another tile changes nothing here. */
  lemma PaintElsewhere(frame: seq<Pixel>, g: Grid, s: nat, other: seq<Pixel>, t: nat, tile: seq<Pixel>)
    requires g.tileSize > 0 && t < g.NumTiles() && s < g.NumTiles() && s != t && |frame| == g.Area()
    requires |other| == TileArea(g, s) && Shows(frame, g, t, tile)
    ensures Inside(TileBox(g, s), g)
    ensures Shows(Paint(frame, g, TileBox(g, s), other), g, t, tile)
  {
    TileBoxInside(g, s);
    TileBoxInside(g, t);
    TilesDisjoint(g, s, t);
    CutPaintOther(frame, g, TileBox(g, s), other, TileBox(g, t));
  }

  /** What SKIP and COPY tiles before t show. */
  ghost predicate RepeatedBefore(d: DecoderState, g: Grid, codes: seq<u8>, mvs: seq<(int, int)>, frame: seq<Pixel>,
                                 t: nat)
    requires g.tileSize > 0 && t <= |codes| == g.NumTiles() && t <= |mvs| && |frame| == g.Area() && |d.ref| == g.Area()
  {
    forall s :: 0 <= s < t && !IsCoded(codes[s]) ==> RepeatedShown(d, g, codes, mvs, frame, s)
  }

  ghost predicate RepeatedShown(d: DecoderState, g: Grid, codes: seq<u8>, mvs: seq<(int, int)>, frame: seq<Pixel>,
                                s: nat)
    requires g.tileSize > 0 && s < |codes| == g.NumTiles() && s < |mvs| && |frame| == g.Area() && |d.ref| == g.Area()
  {
    TileBoxInside(g, s);
    Shows(frame, g, s, RepeatedTile(d, g, TileBox(g, s), codes[s], mvs[s]))
  }

  lemma RepeatedStep(d: DecoderState, g: Grid, codes: seq<u8>, mvs: seq<(int, int)>, frame: seq<Pixel>, t: nat,
                     mv: (int, int), tile: seq<Pixel>)
    requires g.tileSize > 0 && t == |mvs| < |codes| == g.NumTiles() && |frame| == g.Area() && |d.ref| == g.Area()
    requires RepeatedBefore(d, g, codes, mvs, frame, t)
    requires Inside(TileBox(g, t), g) && tile == RepeatedTile(d, g, TileBox(g, t), codes[t], mv)
    ensures RepeatedBefore(d, g, codes, mvs + [mv], Paint(frame, g, TileBox(g, t), tile), t + 1)
  {
    var next := Paint(frame, g, TileBox(g, t), tile);
    forall s | 0 <= s < t + 1 && !IsCoded(codes[s])
      ensures RepeatedShown(d, g, codes, mvs + [mv], next, s)
    {
      if s == t {
        PaintShows(frame, g, t, tile);
      } else {
        assert RepeatedShown(d, g, codes, mvs, frame, s);
        TileBoxInside(g, s);
        PaintElsewhere(frame, g, t, tile, s, RepeatedTile(d, g, TileBox(g, s), codes[s], mvs[s]));
      }
    }
  }

  lemma RepeatedSkip(d: DecoderState, g: Grid, codes: seq<u8>, mvs: seq<(int, int)>, frame: seq<Pixel>, t: nat)
    requires g.tileSize > 0 && t == |mvs| < |codes| == g.NumTiles() && |frame| == g.Area() && |d.ref| == g.Area()
    requires RepeatedBefore(d, g, codes, mvs, frame, t) && IsCoded(codes[t])
    ensures RepeatedBefore(d, g, codes, mvs + [(0, 0)], frame, t + 1)
  {
    forall s | 0 <= s < t + 1 && !IsCoded(codes[s])
      ensures RepeatedShown(d, g, codes, mvs + [(0, 0)], frame, s)
    {
      assert RepeatedShown(d, g, codes, mvs, frame, s);
    }
  }

  lemma NoVectorStep(front: seq<(int, int)>, r: Reader, codes: seq<u8>, t: nat)
    requires t < |codes| && codes[t] != 1
    ensures After(front, ReadMotion(r, codes, t)) == After(front + [(0, 0)], ReadMotion(r, codes, t + 1))
  {
    assert ReadMotion(r, codes, t) == After([(0, 0)], ReadMotion(r, codes, t + 1));
    AfterOne(front, (0, 0), ReadMotion(r, codes, t + 1));
  }

  function GetVector(r: Reader): ((int, int), Reader)
  {
    var (x, r1) := GetU8(r);
    var (y, r2) := GetU16(r1);
    ((ToI8(x), ToI16(y) as int), r2)
  }

  lemma VectorStep(front: seq<(int, int)>, r: Reader, codes: seq<u8>, t: nat, mv: (int, int), r1: Reader)
    requires t < |codes| && codes[t] == 1 && GetVector(r) == (mv, r1)
    ensures After(front, ReadMotion(r, codes, t))
         == if r1.error then Rejected else After(front + [mv], ReadMotion(r1, codes, t + 1))
  {
    assert ReadMotion(r, codes, t) == if r1.error then Rejected else After([mv], ReadMotion(r1, codes, t + 1));
    AfterOne(front, mv, ReadMotion(r1, codes, t + 1));
  }

  /** The vector of tile t; only COPY tiles have one in the stream. */
  method ReadVector(bs: BitstreamReader, codes: seq<u8>, t: nat, ghost front: seq<(int, int)>)
    returns (ok: bool, mv: (int, int))
    requires bs.Valid() && t < |codes|
    modifies bs
    ensures bs.Valid() && (codes[t] != 1 ==> ok && mv == (0, 0))
    ensures After(front, ReadMotion(old(bs.Value()), codes, t))
         == if ok then After(front + [mv], ReadMotion(bs.Value(), codes, t + 1)) else Rejected
  {
    ghost var r := bs.Value();
    if codes[t] != 1 {
      NoVectorStep(front, r, codes, t);
      return true, (0, 0);
    }
    var x := bs.ReadU8();
    var y := bs.ReadU16();
    mv := (ToI8(x), ToI16(y));
    VectorStep(front, r, codes, t, mv, bs.Value());
    ok := !bs.error;
  }

  /** One tile of the first pass: painted if it is repeated, put on the list if it is coded. */
  method RepeatOrList(g: Grid, codes: seq<u8>, t: nat, mv: (int, int), hasRef: bool, ref: seq<Pixel>, out: array<Pixel>,
                      jobs: seq<nat>, ghost d: DecoderState, mvs: seq<(int, int)>) returns (jobs': seq<nat>)
    requires g.tileSize > 0 && t == |mvs| < |codes| == g.NumTiles() && (codes[t] != 1 ==> mv == (0, 0))
    requires |ref| == g.Area() == out.Length && d.ref == ref && d.hasRef == hasRef
    requires jobs == JobsOf(codes, t) && RepeatedBefore(d, g, codes, mvs, out[..], t)
    modifies out
    ensures jobs' == JobsOf(codes, t + 1) && RepeatedBefore(d, g, codes, mvs + [mv], out[..], t + 1)
  {
    jobs' := jobs;
    if IsCoded(codes[t]) {
      RepeatedSkip(d, g, codes, mvs, out[..], t);
      jobs' := jobs + [t];
    } else {
      TileBoxInside(g, t);
      var b := TileBox(g, t);
      RepeatedStep(d, g, codes, mvs, out[..], t, mv, RepeatedTile(d, g, b, codes[t], mv));
      PaintRepeated(ref, hasRef, g, b, codes[t], mv, out, d);
    }
  }

  method FirstPassTile(bs: BitstreamReader, g: Grid, codes: seq<u8>, t: nat, hasRef: bool, ref: seq<Pixel>,
                       out: array<Pixel>, jobs: seq<nat>, ghost d: DecoderState, mvs: seq<(int, int)>)
    returns (ok: bool, jobs': seq<nat>, mvs': seq<(int, int)>)
    requires bs.Valid() && g.tileSize > 0 && t == |mvs| < |codes| == g.NumTiles()
    requires |ref| == g.Area() == out.Length && d.ref == ref && d.hasRef == hasRef
    requires jobs == JobsOf(codes, t) && RepeatedBefore(d, g, codes, mvs, out[..], t)
    modifies bs, out
    ensures bs.Valid()
    ensures After(mvs, ReadMotion(old(bs.Value()), codes, t))
         == if ok then After(mvs', ReadMotion(bs.Value(), codes, t + 1)) else Rejected
    ensures ok ==> |mvs'| == t + 1 && jobs' == JobsOf(codes, t + 1) && RepeatedBefore(d, g, codes, mvs', out[..], t + 1)
  {
    jobs', mvs' := jobs, mvs;
    var mv;
    ok, mv := ReadVector(bs, codes, t, mvs);
    if ok {
      jobs' := RepeatOrList(g, codes, t, mv, hasRef, ref, out, jobs, d, mvs);
      mvs' := mvs + [mv];
    }
  }

  lemma MotionStart(r: Reader, codes: seq<u8>)
    ensures After([], ReadMotion(r, codes, 0)) == ReadMotion(r, codes, 0)
  {
    AfterNothing(ReadMotion(r, codes, 0));
  }

  lemma MotionEnd(front: seq<(int, int)>, r: Reader, codes: seq<u8>)
    ensures After(front, ReadMotion(r, codes, |codes|)) == Done((front, r))
  {
    AfterAll(front, r);
  }

  /** The loop over the tiles. */
  method FirstPassTiles(bs: BitstreamReader, g: Grid, codes: seq<u8>, hasRef: bool, ref: seq<Pixel>, out: array<Pixel>,
                        ghost d: DecoderState)
    returns (ok: bool, jobs: seq<nat>, mvs: seq<(int, int)>)
    requires bs.Valid() && g.tileSize > 0 && |codes| == g.NumTiles()
    requires |ref| == g.Area() == out.Length && d.ref == ref && d.hasRef == hasRef
    modifies bs, out
    ensures bs.Valid()
    ensures After([], ReadMotion(old(bs.Value()), codes, 0))
         == if ok then After(mvs, ReadMotion(bs.Value(), codes, |codes|)) else Rejected
    ensures ok ==>
      |mvs| == |codes| && jobs == JobsOf(codes, |codes|) && RepeatedBefore(d, g, codes, mvs, out[..], |codes|)
  {
    ok, jobs, mvs := true, [], [];
    ghost var whole := After([], ReadMotion(bs.Value(), codes, 0));
    ghost var rest := whole;
    for t := 0 to |codes|
      invariant ok && bs.Valid() && |mvs| == t
      invariant rest == After(mvs, ReadMotion(bs.Value(), codes, t)) && rest == whole
      invariant jobs == JobsOf(codes, t) && RepeatedBefore(d, g, codes, mvs, out[..], t)
    {
      ok, jobs, mvs := FirstPassTile(bs, g, codes, t, hasRef, ref, out, jobs, d, mvs);
      if !ok {
        return;
      }
    }
  }

  method FirstPass(bs: BitstreamReader, g: Grid, codes: seq<u8>, hasRef: bool, ref: seq<Pixel>, out: array<Pixel>,
                   ghost d: DecoderState)
    returns (ok: bool, jobs: seq<nat>, mvs: seq<(int, int)>)
    requires bs.Valid() && g.tileSize > 0 && |codes| == g.NumTiles()
    requires |ref| == g.Area() == out.Length && d.ref == ref && d.hasRef == hasRef
    modifies bs, out
    ensures bs.Valid()
    ensures ReadMotion(old(bs.Value()), codes, 0) == if ok then Done((mvs, bs.Value())) else Rejected
    ensures ok ==>
      |mvs| == |codes| && jobs == JobsOf(codes, |codes|) && RepeatedBefore(d, g, codes, mvs, out[..], |codes|)
  {
    MotionStart(bs.Value(), codes);
    ok, jobs, mvs := FirstPassTiles(bs, g, codes, hasRef, ref, out, d);
    if ok {
      MotionEnd(mvs, bs.Value(), codes);
    }
  }

  // ---- Pass 2: coded tiles ----

  /** One job of the second pass. */
  method DecodeTile(payload: seq<u8>, code: nat, dt: Option<array<Rans.DecodeEntry>>, ghost shared: Option<seq<nat>>,
                    transform: CosTables, out: array<Pixel>, g: Grid, b: Box)
    returns (res: Outcome<()>)
    requires out.Length == g.Area() && Inside(b, g) && SharedIs(dt, shared)
    modifies out
    ensures Painted(old(out[..]), out[..], g, b, CodedTile(code, payload, shared, transform, b), res)
  {
    var tileBs := new BitstreamReader(payload);
    if code == 2 {
      res := DecodeLossless(tileBs, dt, shared, ALONE, out, g, b, g.width);
    } else if code == 3 {
      res := DecodeNearLossless(tileBs, dt, shared, ALONE, out, g, b, g.width);
    } else if code == 4 {
      res := DecodeLossy(tileBs, dt, shared, transform, out, g, b, g.width);
    } else {
      res := Rejected;
    }
  }

  /** What both passes are given. */
  datatype Job = Job(d: DecoderState, p: Parsed, data: seq<u8>, transform: CosTables)
  {
    ghost predicate Valid() { WellParsed(p, data) && |d.ref| == p.g.Area() }

    ghost function Result(t: nat): Outcome<seq<Pixel>>
      requires Valid() && t < |p.codes|
    {
      TileResult(d, p, data, transform, t)
    }

    ghost function Results(n: nat): Outcome<seq<seq<Pixel>>>
      requires Valid() && n <= |p.codes|
    {
      TileResults(d, p, data, transform, n)
    }
  }

  /** Tile t is in the frame, if it decodes at all. */
  ghost predicate TileShown(k: Job, frame: seq<Pixel>, t: nat)
    requires k.Valid() && t < |k.p.codes| && |frame| == k.p.g.Area()
  {
    k.Result(t).Done? ==> Shows(frame, k.p.g, t, k.Result(t).value)
  }

  /** The repeated tiles and the first i jobs are in the frame. */
  ghost predicate ShownUpTo(k: Job, frame: seq<Pixel>, i: nat)
    requires k.Valid() && |frame| == k.p.g.Area()
  {
    forall t :: 0 <= t < |k.p.codes| && (!IsCoded(k.p.codes[t]) || JobsBefore(k.p.codes, t) < i) ==>
      TileShown(k, frame, t)
  }

  lemma RepeatedAreShown(k: Job, frame: seq<Pixel>)
    requires k.Valid() && |frame| == k.p.g.Area()
    requires RepeatedBefore(k.d, k.p.g, k.p.codes, k.p.mvs, frame, |k.p.codes|)
    ensures ShownUpTo(k, frame, 0)
  {
    forall t | 0 <= t < |k.p.codes| && !IsCoded(k.p.codes[t])
      ensures TileShown(k, frame, t)
    {
      assert RepeatedShown(k.d, k.p.g, k.p.codes, k.p.mvs, frame, t);
    }
  }

  lemma JobDone(k: Job, frame: seq<Pixel>, next: seq<Pixel>, i: nat, t: nat)
    requires k.Valid() && |frame| == k.p.g.Area() && ShownUpTo(k, frame, i)
    requires t < |k.p.codes| && IsCoded(k.p.codes[t]) && JobsBefore(k.p.codes, t) == i
    requires Inside(TileBox(k.p.g, t), k.p.g)
    requires next == if k.Result(t).Done? then Paint(frame, k.p.g, TileBox(k.p.g, t), k.Result(t).value) else frame
    ensures ShownUpTo(k, next, i + 1)
  {
    forall s | 0 <= s < |k.p.codes| && (!IsCoded(k.p.codes[s]) || JobsBefore(k.p.codes, s) < i + 1)
      ensures TileShown(k, next, s)
    {
      TileAfterJob(k, frame, next, i, t, s);
    }
  }

  lemma TileAfterJob(k: Job, frame: seq<Pixel>, next: seq<Pixel>, i: nat, t: nat, s: nat)
    requires k.Valid() && |frame| == k.p.g.Area() && ShownUpTo(k, frame, i)
    requires t < |k.p.codes| && IsCoded(k.p.codes[t]) && JobsBefore(k.p.codes, t) == i
    requires Inside(TileBox(k.p.g, t), k.p.g)
    requires next == if k.Result(t).Done? then Paint(frame, k.p.g, TileBox(k.p.g, t), k.Result(t).value) else frame
    requires s < |k.p.codes| && (!IsCoded(k.p.codes[s]) || JobsBefore(k.p.codes, s) < i + 1)
    ensures TileShown(k, next, s)
  {
    if s == t {
      JobShows(k, frame, next, t);
    } else {
      if IsCoded(k.p.codes[s]) {
        SameJob(k.p.codes, s, t);
      }
      assert TileShown(k, frame, s);
      OthersStay(k, frame, next, t, s);
    }
  }

  /** Two coded tiles have two jobs. */
  lemma SameJob(codes: seq<u8>, s: nat, t: nat)
    requires s < |codes| && t < |codes| && s != t && IsCoded(codes[s]) && IsCoded(codes[t])
    ensures JobsBefore(codes, s) != JobsBefore(codes, t)
  {
    JobOf(codes, s, |codes|);
    JobOf(codes, t, |codes|);
  }

  lemma JobShows(k: Job, frame: seq<Pixel>, next: seq<Pixel>, t: nat)
    requires k.Valid() && |frame| == k.p.g.Area() && t < |k.p.codes| && Inside(TileBox(k.p.g, t), k.p.g)
    requires next == if k.Result(t).Done? then Paint(frame, k.p.g, TileBox(k.p.g, t), k.Result(t).value) else frame
    ensures TileShown(k, next, t)
  {
    if k.Result(t).Done? {
      PaintShows(frame, k.p.g, t, k.Result(t).value);
    }
  }

  lemma OthersStay(k: Job, frame: seq<Pixel>, next: seq<Pixel>, t: nat, s: nat)
    requires k.Valid() && |frame| == k.p.g.Area() && t < |k.p.codes| && Inside(TileBox(k.p.g, t), k.p.g)
    requires s < |k.p.codes| && s != t && TileShown(k, frame, s)
    requires next == if k.Result(t).Done? then Paint(frame, k.p.g, TileBox(k.p.g, t), k.Result(t).value) else frame
    ensures TileShown(k, next, s)
  {
    if k.Result(t).Done? && k.Result(s).Done? {
      PaintElsewhere(frame, k.p.g, t, k.Result(t).value, s, k.Result(s).value);
    }
  }

  /** The worst of two outcomes. */
  function Worse<S, T>(a: Outcome<S>, b: Outcome<T>): Outcome<()>
  {
    if a.Unspecified? || b.Unspecified? then Unspecified
    else if a.Rejected? || b.Rejected? then Rejected
    else Done(())
  }

  /** The worst outcome of the coded tiles before t. */
  ghost function Verdict(k: Job, t: nat): (v: Outcome<()>)
    requires k.Valid() && t <= |k.p.codes|
  {
    if t == 0 then Done(())
    else if IsCoded(k.p.codes[t - 1]) then Worse(Verdict(k, t - 1), k.Result(t - 1))
    else Verdict(k, t - 1)
  }

  lemma VerdictUnfold(k: Job, n: nat)
    requires k.Valid() && n < |k.p.codes|
    ensures Verdict(k, n + 1) == if IsCoded(k.p.codes[n]) then Worse(Verdict(k, n), k.Result(n)) else Verdict(k, n)
    ensures !IsCoded(k.p.codes[n]) ==> k.Result(n).Done?
  {
  }

  lemma WorseOfJoined(tiles: Outcome<seq<seq<Pixel>>>, tile: Outcome<seq<Pixel>>)
    ensures Worse(Joined(tiles, tile), Done(())) == Worse(Worse(tiles, Done(())), tile)
    ensures tile.Done? ==> Worse(Joined(tiles, tile), Done(())) == Worse(tiles, Done(()))
  {
  }

  lemma VerdictOfStep(k: Job, n: nat, next: nat)
    requires k.Valid() && n < |k.p.codes| && Verdict(k, n) == Worse(k.Results(n), Done(())) && next == n + 1
    ensures Verdict(k, next) == Worse(k.Results(next), Done(()))
  {
    ResultsUnfold(k, n);
    VerdictUnfold(k, n);
    WorseOfJoined(k.Results(n), k.Result(n));
  }

  lemma {:induction false} VerdictOfResults(k: Job, n: nat)
    requires k.Valid() && n <= |k.p.codes|
    ensures Verdict(k, n) == Worse(k.Results(n), Done(()))
  {
    if n > 0 {
      VerdictOfResults(k, n - 1);
      VerdictOfStep(k, n - 1, n);
    }
  }

  lemma ResultsUnfold(k: Job, n: nat)
    requires k.Valid() && n < |k.p.codes|
    ensures k.Results(n + 1) == Joined(k.Results(n), k.Result(n))
  {
  }

  /** Tiles without a payload do not change the verdict. */
  lemma {:induction false} VerdictGap(k: Job, a: nat, b: nat)
    requires k.Valid() && a <= b <= |k.p.codes| && JobsBefore(k.p.codes, a) == JobsBefore(k.p.codes, b)
    ensures Verdict(k, a) == Verdict(k, b)
    decreases b
  {
    if a < b {
      JobsMonotone(k.p.codes, a, b - 1);
      VerdictGap(k, a, b - 1);
    }
  }

  lemma VerdictBetween(k: Job, a: nat, b: nat)
    requires k.Valid() && a <= |k.p.codes| && b <= |k.p.codes| && JobsBefore(k.p.codes, a) == JobsBefore(k.p.codes, b)
    ensures Verdict(k, a) == Verdict(k, b)
  {
    if a <= b {
      VerdictGap(k, a, b);
    } else {
      VerdictGap(k, b, a);
    }
  }

  /** When every tile decodes, the frame both passes leave is the tiles painted in order. */
  lemma TilesMakeFrame(k: Job, frame: seq<Pixel>, tiles: seq<seq<Pixel>>)
    requires k.Valid() && |frame| == k.p.g.Area() && ShownUpTo(k, frame, JobsBefore(k.p.codes, |k.p.codes|))
    requires k.Results(|k.p.codes|) == Done(tiles)
    ensures Fitting(k.p.g, tiles)
    ensures frame == PaintTiles(Resized([], k.p.g.Area()), k.p.g, tiles, |tiles|)
  {
    var g := k.p.g;
    var painted := PaintTiles(Resized([], g.Area()), g, tiles, |tiles|);
    forall t | 0 <= t < g.NumTiles()
      ensures SameTile(g, frame, painted, t)
    {
      if IsCoded(k.p.codes[t]) {
        JobOf(k.p.codes, t, |k.p.codes|);
      }
      assert TileShown(k, frame, t);
      DecodedTiles.TileOfResults(k.d, k.p, k.data, k.transform, t, tiles);
      TilePainted(Resized([], g.Area()), g, tiles, |tiles|, t);
    }
    TilesDetermineFrame(g, frame, painted);
  }

  lemma VerdictStep(k: Job, t: nat, res: Outcome<()>)
    requires k.Valid() && t < |k.p.codes| && IsCoded(k.p.codes[t])
    requires (res.Done? <==> k.Result(t).Done?) && (res.Rejected? <==> k.Result(t).Rejected?)
    ensures Verdict(k, t + 1) == Worse(Verdict(k, t), res)
  {
  }

  method DecodeJob(ghost k: Job, dt: Option<array<Rans.DecodeEntry>>, out: array<Pixel>, i: nat, t: nat, code: nat,
                   payload: seq<u8>, transform: CosTables, g: Grid, b: Box)
    returns (res: Outcome<()>)
    requires k.Valid() && g == k.p.g && out.Length == g.Area() && ShownUpTo(k, out[..], i)
    requires t < |k.p.codes| && IsCoded(k.p.codes[t]) && JobsBefore(k.p.codes, t) == i && SharedIs(dt, k.p.shared)
    requires b == TileBox(g, t) && Inside(b, g) && k.Result(t) == CodedTile(code, payload, k.p.shared, transform, b)
    modifies out
    ensures ShownUpTo(k, out[..], i + 1)
    ensures (res.Done? <==> k.Result(t).Done?) && (res.Rejected? <==> k.Result(t).Rejected?)
  {
    ghost var before := out[..];
    res := DecodeTile(payload, code, dt, k.p.shared, transform, out, g, b);
    JobDone(k, before, out[..], i, t);
  }

  lemma JobInput(k: Job, t: nat, i: nat)
    requires k.Valid() && t < |k.p.codes| && IsCoded(k.p.codes[t]) && i == JobsBefore(k.p.codes, t)
    ensures i < |k.p.sizes| && Inside(TileBox(k.p.g, t), k.p.g)
    ensures k.Result(t)
          == CodedTile(k.p.codes[t], Payload(k.data, k.p.start, k.p.sizes, i), k.p.shared, k.transform,
                       TileBox(k.p.g, t))
  {
    JobInRange(k.p.codes, t);
    TileBoxInside(k.p.g, t);
  }

  /** Where each payload starts. */
  method TileOffsets(tileSizes: seq<nat>, tileDataStart: nat) returns (tileOffsets: seq<nat>, offset: nat)
    ensures |tileOffsets| == |tileSizes| && offset == tileDataStart + Sum(tileSizes)
    ensures forall j :: 0 <= j < |tileSizes| ==> tileOffsets[j] == tileDataStart + Sum(tileSizes[..j])
  {
    tileOffsets, offset := [], tileDataStart;
    for i := 0 to |tileSizes|
      invariant |tileOffsets| == i && offset == tileDataStart + Sum(tileSizes[..i])
      invariant forall j :: 0 <= j < i ==> tileOffsets[j] == tileDataStart + Sum(tileSizes[..j])
    {
      SumStep(tileSizes, i);
      tileOffsets := tileOffsets + [offset];
      offset := offset + tileSizes[i];
    }
    assert tileSizes[..|tileSizes|] == tileSizes;
  }

  lemma JobBounds(k: Job, i: nat, t: nat)
    requires k.Valid() && i < JobsBefore(k.p.codes, |k.p.codes|) && t == JobsOf(k.p.codes, |k.p.codes|)[i]
    ensures t < |k.p.codes| && IsCoded(k.p.codes[t]) && JobsBefore(k.p.codes, t) == i
  {
    JobIs(k.p.codes, |k.p.codes|, i);
  }

  lemma NextInput(k: Job, t: nat, offset: nat, i: nat)
    requires k.Valid() && i < JobsBefore(k.p.codes, |k.p.codes|) && t == JobsOf(k.p.codes, |k.p.codes|)[i]
    requires i < |k.p.sizes| && offset == k.p.start + Sum(k.p.sizes[..i])
    ensures t < |k.p.codes| && IsCoded(k.p.codes[t]) && JobsBefore(k.p.codes, t) == i
    ensures offset + k.p.sizes[i] <= |k.data|
    ensures Inside(TileBox(k.p.g, t), k.p.g)
    ensures k.Result(t)
          == CodedTile(k.p.codes[t], k.data[offset..offset + k.p.sizes[i]], k.p.shared, k.transform,
                       TileBox(k.p.g, t))
  {
    JobBounds(k, i, t);
    PayloadAt(k.data, k.p.start, k.p.sizes, i, offset);
    JobInput(k, t, i);
  }

  lemma PayloadAt(data: seq<u8>, start: nat, sizes: seq<nat>, j: nat, offset: nat)
    requires j < |sizes| && start + Sum(sizes) <= |data| && offset == start + Sum(sizes[..j])
    ensures offset + sizes[j] <= |data| && Payload(data, start, sizes, j) == data[offset..offset + sizes[j]]
  {
    SumStep(sizes, j);
    SumMonotone(sizes, j + 1, |sizes|);
    assert sizes[..|sizes|] == sizes;
  }

  /** Finds the payload of job i and decodes it. */
  method NextJob(k: Job, dt: Option<array<Rans.DecodeEntry>>, t: nat, offset: nat, i: nat, out: array<Pixel>)
    returns (res: Outcome<()>)
    requires SharedIs(dt, k.p.shared)
    requires k.Valid() && out.Length == k.p.g.Area() && ShownUpTo(k, out[..], i)
    requires i < JobsBefore(k.p.codes, |k.p.codes|) && t == JobsOf(k.p.codes, |k.p.codes|)[i]
    requires i < |k.p.sizes| && offset == k.p.start + Sum(k.p.sizes[..i])
    modifies out
    ensures ShownUpTo(k, out[..], i + 1) && t < |k.p.codes|
    ensures (res.Done? <==> k.Result(t).Done?) && (res.Rejected? <==> k.Result(t).Rejected?)
  {
    NextInput(k, t, offset, i);
    var payload := k.data[offset..offset + k.p.sizes[i]];
    res := DecodeJob(k, dt, out, i, t, k.p.codes[t], payload, k.transform, k.p.g, TileBox(k.p.g, t));
  }

  lemma VerdictAt(k: Job, at: nat, t: nat, i: nat, res: Outcome<()>)
    requires k.Valid() && at <= |k.p.codes| && JobsBefore(k.p.codes, at) == i
    requires i < JobsBefore(k.p.codes, |k.p.codes|) && t == JobsOf(k.p.codes, |k.p.codes|)[i]
    requires (res.Done? <==> k.Result(t).Done?) && (res.Rejected? <==> k.Result(t).Rejected?)
    ensures t < |k.p.codes| && JobsBefore(k.p.codes, t + 1) == i + 1
    ensures Verdict(k, t + 1) == Worse(Verdict(k, at), res)
  {
    JobIs(k.p.codes, |k.p.codes|, i);
    VerdictBetween(k, at, t);
    VerdictStep(k, t, res);
  }

  method SecondPass(k: Job, dt: Option<array<Rans.DecodeEntry>>, jobs: seq<nat>, tileOffsets: seq<nat>,
                    out: array<Pixel>)
    returns (verdict: Outcome<()>)
    requires SharedIs(dt, k.p.shared)
    requires k.Valid() && jobs == JobsOf(k.p.codes, |k.p.codes|) && |tileOffsets| == |k.p.sizes|
    requires forall j :: 0 <= j < |tileOffsets| ==> tileOffsets[j] == k.p.start + Sum(k.p.sizes[..j])
    requires out.Length == k.p.g.Area() && ShownUpTo(k, out[..], 0)
    modifies out
    ensures ShownUpTo(k, out[..], |jobs|) && verdict == Verdict(k, |k.p.codes|)
  {
    verdict := Done(());
    ghost var at: nat := 0;
    for i := 0 to |jobs|
      invariant at <= |k.p.codes| && JobsBefore(k.p.codes, at) == i
      invariant verdict == Verdict(k, at)
      invariant ShownUpTo(k, out[..], i)
    {
      var res := NextJob(k, dt, jobs[i], tileOffsets[i], i, out);
      VerdictAt(k, at, jobs[i], i, res);
      verdict := Worse(verdict, res);
      at := jobs[i] + 1;
    }
    VerdictBetween(k, at, |k.p.codes|);
  }

  // ---- The packet ----

  /** Reading the body fails as ParseBody does; otherwise its parts are ParseBody's. */
  lemma BodyUnfold(r: Reader, g: Grid, frameId: u32, size: nat, hasTable: bool)
    requires g.tileSize > 0
    ensures ReadCodes(r, g.NumTiles()).Rejected? ==> ParseBody(r, g, frameId, size, hasTable) == Rejected
    ensures ReadCodes(r, g.NumTiles()).Unspecified? ==> ParseBody(r, g, frameId, size, hasTable) == Unspecified
    ensures ReadCodes(r, g.NumTiles()).Done? ==>
      var (codes, r1) := ReadCodes(r, g.NumTiles()).value;
      ParseBody(r, g, frameId, size, hasTable) == ParseRest(Align(r1), g, frameId, size, codes, hasTable)
  {
  }

  /** ParseBody behind the mode map. */
  function ParseRest(r: Reader, g: Grid, frameId: u32, size: nat, codes: seq<u8>, hasTable: bool): Outcome<Parsed>
  {
    var (mvs, r2) :- ReadMotion(r, codes, 0);
    ParseTables(r2, g, frameId, size, codes, mvs, hasTable)
  }

  /** ParseBody behind the motion vectors. */
  function ParseTables(r: Reader, g: Grid, frameId: u32, size: nat, codes: seq<u8>, mvs: seq<(int, int)>,
                       hasTable: bool)
    : Outcome<Parsed>
  {
    var (shared, r1) :- ReadShared(r, hasTable);
    ParseSizes(r1, g, frameId, size, codes, mvs, shared)
  }

  lemma {:induction false} SizesAligned(r: Reader, n: nat)
    requires r.bit == 0 && ReadSizes(r, n).Done?
    ensures ReadSizes(r, n).value.1.bit == 0
    decreases n
  {
    if n > 0 {
      SizesAligned(GetU32(r).1, n - 1);
    }
  }

  lemma TableAligned(r: Reader, n: nat)
    ensures var r1 := GetU16(r).1; !r1.error && ReadSizes(r1, n).Done? ==> ReadSizes(r1, n).value.1.bit == 0
  {
    var r1 := GetU16(r).1;
    if ReadSizes(r1, n).Done? {
      SizesAligned(r1, n);
    }
  }

  /** The count, the size table and the check that the payloads are all there. */
  method ReadTable(bs: BitstreamReader, g: Grid, frameId: u32, size: nat, codes: seq<u8>, mvs: seq<(int, int)>,
                   shared: Option<seq<nat>>, numJobs: nat)
    returns (res: Outcome<Parsed>, tileOffsets: seq<nat>)
    requires bs.Valid() && numJobs == JobsBefore(codes, |codes|)
    modifies bs
    ensures bs.Valid() && res == ParseSizes(old(bs.Value()), g, frameId, size, codes, mvs, shared)
    ensures res.Done? ==> |tileOffsets| == |res.value.sizes| && res.value.shared == shared
    ensures res.Done? ==>
      forall j :: 0 <= j < |tileOffsets| ==> tileOffsets[j] == res.value.start + Sum(res.value.sizes[..j])
  {
    tileOffsets := [];
    ghost var r := bs.Value();
    var numEncodedTiles := bs.ReadU16();
    TableAligned(r, numEncodedTiles);
    if bs.error || numEncodedTiles != numJobs {
      res := Rejected;
      return;
    }
    var tileSizes := ReadSizeTable(bs, numEncodedTiles);
    if !tileSizes.Done? {
      res := if tileSizes.Rejected? then Rejected else Unspecified;
      return;
    }
    var tileDataStart := bs.pos;
    var offset;
    tileOffsets, offset := TileOffsets(tileSizes.value, tileDataStart);
    if offset > size {
      res := Rejected;
      return;
    }
    res := Done(Parsed(g, frameId, codes, mvs, shared, tileSizes.value, tileDataStart));
  }

  /** The table of the packet, if its header announces one, and its decode table. */
  method ReadSharedTable(bs: BitstreamReader, hasTable: bool)
    returns (res: Outcome<Option<seq<nat>>>, dt: Option<array<Rans.DecodeEntry>>)
    requires bs.Valid()
    modifies bs
    ensures bs.Valid() && Agrees(ReadShared(old(bs.Value()), hasTable), res, bs.Value())
    ensures res.Done? ==> SharedIs(dt, res.value)
    ensures dt.Some? ==> fresh(dt.value)
  {
    dt := None;
    if !hasTable {
      res := Done(None);
      return;
    }
    var numNonZero := bs.ReadU16();
    if bs.error {
      res := Rejected;
      return;
    }
    var freqs := DecodeFrequencies(bs, numNonZero);
    if !freqs.Done? {
      res := if freqs.Rejected? then Rejected else Unspecified;
      return;
    }
    var decodeTable := DecodeTableFor(freqs.value);
    res, dt := Done(Some(freqs.value)), Some(decodeTable);
  }

  /** The whole body: mode map, first pass, shared table, size table. */
  method ReadBody(bs: BitstreamReader, g: Grid, frameId: u32, size: nat, hasTable: bool, d: DecoderState,
                  out: array<Pixel>)
    returns (res: Outcome<Parsed>, dt: Option<array<Rans.DecodeEntry>>, jobs: seq<nat>, tileOffsets: seq<nat>)
    requires bs.Valid() && g.tileSize > 0 && |d.ref| == g.Area() == out.Length
    modifies bs, out
    ensures res == ParseBody(old(bs.Value()), g, frameId, size, hasTable)
    ensures res.Done? ==> BodyIs(d, g, res.value, jobs, tileOffsets, out[..]) && SharedIs(dt, res.value.shared)
    ensures dt.Some? ==> fresh(dt.value)
  {
    ghost var r := bs.Value();
    BodyUnfold(r, g, frameId, size, hasTable);
    dt, jobs, tileOffsets := None, [], [];
    var codes := ReadModeMap(bs, g.NumTiles());
    if !codes.Done? {
      res := if codes.Rejected? then Rejected else Unspecified;
      return;
    }
    bs.AlignToByte();
    res, dt, jobs, tileOffsets := ReadRest(bs, g, frameId, size, codes.value, hasTable, d, out);
  }

  ghost predicate BodyIs(d: DecoderState, g: Grid, p: Parsed, jobs: seq<nat>, tileOffsets: seq<nat>, frame: seq<Pixel>)
    requires g.tileSize > 0 && |d.ref| == g.Area() == |frame|
  {
    && p.g == g && |p.codes| == |p.mvs| == g.NumTiles() && jobs == JobsOf(p.codes, |p.codes|)
    && |tileOffsets| == |p.sizes|
    && (forall j :: 0 <= j < |tileOffsets| ==> tileOffsets[j] == p.start + Sum(p.sizes[..j]))
    && RepeatedBefore(d, g, p.codes, p.mvs, frame, |p.codes|)
  }

  method ReadRest(bs: BitstreamReader, g: Grid, frameId: u32, size: nat, codes: seq<u8>, hasTable: bool,
                  d: DecoderState, out: array<Pixel>)
    returns (res: Outcome<Parsed>, dt: Option<array<Rans.DecodeEntry>>, jobs: seq<nat>, tileOffsets: seq<nat>)
    requires bs.Valid() && g.tileSize > 0 && |d.ref| == g.Area() == out.Length && |codes| == g.NumTiles()
    modifies bs, out
    ensures res == ParseRest(old(bs.Value()), g, frameId, size, codes, hasTable)
    ensures res.Done? ==> BodyIs(d, g, res.value, jobs, tileOffsets, out[..]) && SharedIs(dt, res.value.shared)
    ensures dt.Some? ==> fresh(dt.value)
  {
    dt, tileOffsets := None, [];
    var ok, mvs;
    ok, jobs, mvs := FirstPass(bs, g, codes, d.hasRef, d.ref, out, d);
    if !ok {
      res := Rejected;
      return;
    }
    res, dt, tileOffsets := ReadTables(bs, g, frameId, size, codes, mvs, hasTable, |jobs|);
  }

  method ReadTables(bs: BitstreamReader, g: Grid, frameId: u32, size: nat, codes: seq<u8>, mvs: seq<(int, int)>,
                    hasTable: bool, numJobs: nat)
    returns (res: Outcome<Parsed>, dt: Option<array<Rans.DecodeEntry>>, tileOffsets: seq<nat>)
    requires bs.Valid() && numJobs == JobsBefore(codes, |codes|)
    modifies bs
    ensures bs.Valid() && res == ParseTables(old(bs.Value()), g, frameId, size, codes, mvs, hasTable)
    ensures res.Done? ==> |tileOffsets| == |res.value.sizes| && SharedIs(dt, res.value.shared)
    ensures res.Done? ==>
      forall j :: 0 <= j < |tileOffsets| ==> tileOffsets[j] == res.value.start + Sum(res.value.sizes[..j])
    ensures dt.Some? ==> fresh(dt.value)
  {
    tileOffsets := [];
    var shared;
    shared, dt := ReadSharedTable(bs, hasTable);
    if !shared.Done? {
      res := if shared.Rejected? then Rejected else Unspecified;
      return;
    }
    res, tileOffsets := ReadTable(bs, g, frameId, size, codes, mvs, shared.value, numJobs);
  }

  /** Both passes over a body that parses. */
  method DecodeBody(bs: BitstreamReader, g: Grid, frameId: u32, data: seq<u8>, hasTable: bool, d: DecoderState,
                    transform: CosTables, out: array<Pixel>)
    returns (res: Outcome<()>)
    requires bs.Valid() && g.tileSize > 0 && |d.ref| == g.Area() == out.Length
    modifies bs, out
    ensures BodyOutcome(ParseBody(old(bs.Value()), g, frameId, |data|, hasTable), d, g, data, transform, res, out[..])
  {
    var p, dt, jobs, tileOffsets := ReadBody(bs, g, frameId, |data|, hasTable, d, out);
    if !p.Done? {
      return if p.Rejected? then Rejected else Unspecified;
    }
    ParseBodyShape(old(bs.Value()), g, frameId, data, hasTable);
    var k := Job(d, p.value, data, transform);
    RepeatedAreShown(k, out[..]);
    res := SecondPass(k, dt, jobs, tileOffsets, out);
    VerdictOfResults(k, |k.p.codes|);
    if res.Done? {
      TilesMakeFrame(k, out[..], k.Results(|k.p.codes|).value);
    }
  }

  /** The outcome of a packet whose body parses to `parsed`, and the frame it leaves. */
  ghost predicate BodyOutcome(parsed: Outcome<Parsed>, d: DecoderState, g: Grid, data: seq<u8>, transform: CosTables,
                              res: Outcome<()>, frame: seq<Pixel>)
    requires |d.ref| == g.Area()
  {
    match parsed
    case Rejected => res.Rejected?
    case Unspecified => res.Unspecified?
    case Done(p) =>
      && WellParsed(p, data) && p.g == g
      && match TileResults(d, p, data, transform, |p.codes|)
         case Rejected => res.Rejected?
         case Unspecified => res.Unspecified?
         case Done(tiles) => res.Done? && frame == PaintTiles(Resized([], g.Area()), g, tiles, |tiles|)
  }

  class OmniDecoder {
    const transform: CosTables
    var width: nat
    var height: nat
    var capacity: nat
    var hasRef: bool
    var refFrame: array<Pixel>

    ghost predicate Valid() reads this { refFrame.Length == width * height }

    function Value(): DecoderState
      reads this, refFrame
    {
      DecoderState(width, height, capacity, hasRef, refFrame[..])
    }

    /** init(): buffers for tiles of the default size. */
    constructor (width: nat, height: nat, transform: CosTables)
      ensures Valid() && fresh(refFrame) && this.transform == transform
      ensures Value() == DecoderState(width, height, 64, false, Resized([], width * height))
    {
      MulMonotone(0, width, height);
      this.width, this.height, this.capacity, this.hasRef, this.transform := width, height, 64, false, transform;
      refFrame := new Pixel[width * height](_ => BLACK);
    }

    /** A packet of other dimensions drops the reference and resizes every buffer. */
    method Reshape(g: Grid)
      requires Valid()
      modifies this
      ensures Valid() && Value() == Reshaped(old(Value()), g) && (refFrame == old(refFrame) || fresh(refFrame))
    {
      if g.width != width || g.height != height {
        MulMonotone(0, g.width, g.height);
        var was := refFrame[..];
        width, height, capacity, hasRef := g.width, g.height, g.tileSize, false;
        refFrame := new Pixel[g.width * g.height](i => if 0 <= i < |was| then was[i] else BLACK);
        assert refFrame[..] == Resized(was, g.Area());
      }
    }

    method UpdateReference(out: array<Pixel>)
      requires Valid() && out.Length == refFrame.Length && out != refFrame
      modifies this, refFrame
      ensures Valid() && refFrame == old(refFrame) && Value() == old(Value()).(hasRef := true, ref := out[..])
    {
      for i := 0 to out.Length
        modifies refFrame
        invariant refFrame[..i] == out[..i]
      {
        refFrame[i] := out[i];
      }
      assert refFrame[..] == refFrame[..out.Length] && out[..out.Length] == out[..];
      hasRef := true;
    }

    method Decode(data: seq<u8>) returns (res: Outcome<seq<Pixel>>)
      requires Valid()
      modifies this, refFrame
      ensures Valid() && (refFrame == old(refFrame) || fresh(refFrame))
      ensures Decoding(res, Value()) == DecodePacket(old(Value()), data, transform)
    {
      if |data| < 16 {
        return Rejected;
      }
      var bs := new BitstreamReader(data);
      var hdrBuf := bs.ReadBytes(16);
      var hdr := HeaderOf(hdrBuf.value);
      if hdr.magic != OMNI_MAGIC {
        return Rejected;
      }
      var g := GridOf(hdr);
      Reshape(g);
      if !Consistent(hdr, capacity) {
        return Unspecified;
      }
      var out := new Pixel[width * height](_ => BLACK);
      var ok := DecodeBody(bs, g, hdr.frameId, data, hdr.HasSharedTable(), Value(), transform, out);
      if !ok.Done? {
        return if ok.Rejected? then Rejected else Unspecified;
      }
      UpdateReference(out);
      res := Done(out[..]);
    }
  }
}
