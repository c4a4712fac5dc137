/** One packet of the codec: its layout (src/codec/omni/omni_encoder.cpp:131-346) and its
    meaning to the decoder (src/codec/omni/omni_decoder.cpp:45-307). */
module OmniFormat {
  import opened Words
  import opened Arithmetic
  import opened Bitstream
  import opened FrequencyTable
  import opened Residuals
  import opened Frames
  import opened Blocks
  import opened Tiles
  import opened FrameHeader

  datatype TileMode = SKIP | COPY | LOSSLESS | NEAR_LOSSLESS | LOSSY

  function TileCode(m: TileMode): u8
  {
    match m case SKIP => 0 case COPY => 1 case LOSSLESS => 2 case NEAR_LOSSLESS => 3 case LOSSY => 4
  }

  /** What a tile needs besides its pixels: quantisation step, lossy parameter, transform. */
  datatype Quality = Quality(step: nat, qp: nat, transform: CosTables)

  ghost predicate ValidQuality(q: Quality) { 1 <= q.step <= 255 && q.qp <= 255 }

  predicate IsCoded(code: nat) { code != 0 && code != 1 }

  function Codes(modes: seq<TileMode>): (c: seq<u8>)
    ensures |c| == |modes|
  {
    seq(|modes|, t requires 0 <= t < |modes| => TileCode(modes[t]))
  }

  // ---- Layout ----

  ghost function CodeFields(codes: seq<u8>): (fs: seq<Field>)
    ensures |fs| == |codes|
  {
    seq(|codes|, t requires 0 <= t < |codes| => Bits(codes[t], 3))
  }

  /** The motion vectors of the COPY tiles from t on. */
  function MotionBytes(codes: seq<u8>, mvs: seq<(int, int)>, t: nat): seq<u8>
    requires t <= |codes| == |mvs|
    decreases |codes| - t
  {
    if t == |codes| then []
    else (if codes[t] == 1 then [ToU8(mvs[t].0)] + Be16(ToU16(mvs[t].1)) else []) + MotionBytes(codes, mvs, t + 1)
  }

  function SizeBytes(sections: seq<seq<u8>>): seq<u8>
  {
    if sections == [] then [] else Be32(ToU32(|sections[0]|)) + SizeBytes(sections[1..])
  }

  function Concat(sections: seq<seq<u8>>): seq<u8>
  {
    if sections == [] then [] else Concat(sections[..|sections| - 1]) + sections[|sections| - 1]
  }

  ghost function PacketBytes(hdr: Header, codes: seq<u8>, mvs: seq<(int, int)>, sections: seq<seq<u8>>): seq<u8>
    requires |codes| == |mvs|
  {
    HeaderBytes(hdr) + (BitGroup(CodeFields(codes)) + (MotionBytes(codes, mvs, 0)
      + (Be16(ToU16(|sections|)) + (SizeBytes(sections) + Concat(sections)))))
  }

  ghost function TileBytes(m: TileMode, q: Quality, w: nat, h: nat, tile: seq<Pixel>): seq<u8>
    requires |tile| == w * h && FitsSection(w * h) && ValidQuality(q)
  {
    match m
    case LOSSLESS => LosslessBytes(ALONE, Alone(w, h, tile), w, h, tile)
    case NEAR_LOSSLESS => NearLosslessBytes(ALONE, Alone(w, h, tile), w, h, tile, q.step)
    case LOSSY => LossyBytes(q.transform, w, h, tile, q.qp)
    case SKIP => []
    case COPY => []
  }

  /** A grid the encoder works on: at most 64 pixels a tile side, at most 255 tiles a side. */
  ghost predicate ValidGrid(g: Grid)
  {
    && 1 <= g.tileSize <= 64 && 1 <= g.width && 1 <= g.height
    && g.TilesX() <= 255 && g.TilesY() <= 255
  }

  lemma TileFits(g: Grid, t: nat)
    requires ValidGrid(g) && t < g.NumTiles()
    ensures Inside(TileBox(g, t), g) && TileArea(g, t) <= 4096 && FitsSection(TileArea(g, t))
  {
    var b := TileBox(g, t);
    TileBoxInside(g, t);
    MulMonotone(b.w, 64, b.h);
  }

  ghost function TileOf(frame: seq<Pixel>, g: Grid, t: nat): (tile: seq<Pixel>)
    requires ValidGrid(g) && |frame| == g.Area() && t < g.NumTiles()
    ensures |tile| == TileArea(g, t)
  {
    TileFits(g, t);
    Cut(frame, g, TileBox(g, t))
  }

  ghost function SectionOf(g: Grid, frame: seq<Pixel>, m: TileMode, q: Quality, t: nat): seq<u8>
    requires ValidGrid(g) && |frame| == g.Area() && ValidQuality(q) && t < g.NumTiles()
  {
    TileFits(g, t);
    TileBytes(m, q, TileBox(g, t).w, TileBox(g, t).h, TileOf(frame, g, t))
  }

  /** What each tile of the frame would be sent as. */
  ghost function Payloads(g: Grid, frame: seq<Pixel>, modes: seq<TileMode>, q: Quality): (ps: seq<seq<u8>>)
    requires ValidGrid(g) && |frame| == g.Area() && ValidQuality(q) && |modes| == g.NumTiles()
    ensures |ps| == |modes|
  {
    seq(|modes|, t requires 0 <= t < |modes| => SectionOf(g, frame, modes[t], q, t))
  }

  /** The payloads of the coded tiles before t, in tile order. */
  ghost function Sections(codes: seq<u8>, payloads: seq<seq<u8>>, t: nat): seq<seq<u8>>
    requires t <= |codes| == |payloads|
  {
    if t == 0 then []
    else if IsCoded(codes[t - 1]) then Sections(codes, payloads, t - 1) + [payloads[t - 1]]
    else Sections(codes, payloads, t - 1)
  }

  /** The number of coded tiles before t: the job index of a coded tile t. */
  function JobsBefore(codes: seq<u8>, t: nat): (n: nat)
    requires t <= |codes|
    ensures n <= t
  {
    if t == 0 then 0 else JobsBefore(codes, t - 1) + (if IsCoded(codes[t - 1]) then 1 else 0)
  }

  /** The coded tiles before t, in order. */
  function JobsOf(codes: seq<u8>, t: nat): (jobs: seq<nat>)
    requires t <= |codes|
    ensures |jobs| == JobsBefore(codes, t)
    ensures forall j :: 0 <= j < |jobs| ==> jobs[j] < t
  {
    if t == 0 then [] else JobsOf(codes, t - 1) + (if IsCoded(codes[t - 1]) then [t - 1] else [])
  }

  /** Job j belongs to a coded tile, and it is that tile's job. */
  lemma {:induction false} JobIs(codes: seq<u8>, t: nat, j: nat)
    requires t <= |codes| && j < JobsBefore(codes, t)
    ensures IsCoded(codes[JobsOf(codes, t)[j]]) && JobsBefore(codes, JobsOf(codes, t)[j]) == j
  {
    if j < JobsBefore(codes, t - 1) {
      JobIs(codes, t - 1, j);
    }
  }

  /** Every coded tile has a job. */
  lemma {:induction false} JobOf(codes: seq<u8>, t: nat, n: nat)
    requires t < n <= |codes| && IsCoded(codes[t])
    ensures JobsBefore(codes, t) < JobsBefore(codes, n) && JobsOf(codes, n)[JobsBefore(codes, t)] == t
  {
    if t < n - 1 {
      JobOf(codes, t, n - 1);
    }
  }

  // ---- The decoder ----

  /** capacity is the side of the square tile its scratch buffers were sized for. */
  datatype DecoderState = DecoderState(width: nat, height: nat, capacity: nat, hasRef: bool, ref: seq<Pixel>)
  {
    ghost predicate Valid() { |ref| == width * height }
  }

  /** std::vector::resize: keep what fits, fill with zeros. */
  function Resized(s: seq<Pixel>, n: nat): (r: seq<Pixel>)
    ensures |r| == n
  {
    seq(n, i requires 0 <= i < n => if i < |s| then s[i] else BLACK)
  }

  function Reshaped(d: DecoderState, g: Grid): (r: DecoderState)
    ensures |r.ref| == g.Area() || r == d
  {
    if g.width != d.width || g.height != d.height
    then DecoderState(g.width, g.height, g.tileSize, false, Resized(d.ref, g.Area()))
    else d
  }

  /** Row and column of the reference that a COPY tile shows at position i; black outside. */
  function CopiedPixel(ref: seq<Pixel>, g: Grid, b: Box, mvX: int, mvY: int, row: nat, col: nat): Pixel
    requires |ref| == g.Area() && Inside(b, g) && row < b.h && col < b.w
  {
    var srcY, srcX := b.y + row + mvY, b.x + mvX;
    if 0 <= srcY < g.height && 0 <= srcX && srcX + b.w <= g.width then
      Position(g.width, g.height, srcY, srcX + col);
      ref[srcY * g.width + (srcX + col)]
    else BLACK
  }

  function CopiedTile(ref: seq<Pixel>, g: Grid, b: Box, mvX: int, mvY: int): (tile: seq<Pixel>)
    requires |ref| == g.Area() && Inside(b, g)
    ensures |tile| == b.w * b.h
  {
    seq(b.w * b.h, i requires 0 <= i < b.w * b.h =>
      RowOf(b.w, b.h, i); CopiedPixel(ref, g, b, mvX, mvY, i / b.w, i % b.w))
  }

  function BlackTile(b: Box): (tile: seq<Pixel>)
    ensures |tile| == b.w * b.h
  {
    seq(b.w * b.h, i => BLACK)
  }

  /** SKIP and COPY tiles. */
  function RepeatedTile(d: DecoderState, g: Grid, b: Box, code: nat, mv: (int, int)): (tile: seq<Pixel>)
    requires |d.ref| == g.Area() && Inside(b, g)
    ensures |tile| == b.w * b.h
  {
    if !d.hasRef then BlackTile(b)
    else if code == 0 then Cut(d.ref, g, b)
    else CopiedTile(d.ref, g, b, mv.0, mv.1)
  }

  ghost function CodedTile(code: nat, payload: seq<u8>, shared: Option<seq<nat>>, transform: CosTables, b: Box)
    : (res: Outcome<seq<Pixel>>)
    requires ValidShared(shared)
    ensures res.Done? ==> |res.value| == b.w * b.h
  {
    if code == 2 then ReadLossless(NewReader(payload), shared, ALONE, b.w, b.h)
    else if code == 3 then ReadNearLossless(NewReader(payload), shared, ALONE, b.w, b.h)
    else if code == 4 then ReadLossy(NewReader(payload), shared, transform, b.w, b.h)
    else Rejected
  }

  function ReadCodes(r: Reader, n: nat): (res: Outcome<(seq<u8>, Reader)>)
    ensures res.Done? ==> |res.value.0| == n
    decreases n
  {
    if n == 0 then Done(([], r))
    else
      var (c, r1) := GetBits(r, 3);
      if r1.error then Rejected
      else
        var (cs, r2) :- ReadCodes(r1, n - 1);
        Done(([c] + cs, r2))
  }

  /** One motion vector per tile; those that are not COPY have none in the stream. */
  function ReadMotion(r: Reader, codes: seq<u8>, t: nat): (res: Outcome<(seq<(int, int)>, Reader)>)
    requires t <= |codes|
    ensures res.Done? ==> |res.value.0| == |codes| - t
    decreases |codes| - t
  {
    if t == |codes| then Done(([], r))
    else if codes[t] != 1 then
      var (mvs, r1) :- ReadMotion(r, codes, t + 1);
      Done(([(0, 0)] + mvs, r1))
    else
      var (x, r1) := GetU8(r);
      var (y, r2) := GetU16(r1);
      if r2.error then Rejected
      else
        var (mvs, r3) :- ReadMotion(r2, codes, t + 1);
        Done(([(ToI8(x), ToI16(y) as int)] + mvs, r3))
  }

  function ReadSizes(r: Reader, n: nat): (res: Outcome<(seq<nat>, Reader)>)
    ensures res.Done? ==> |res.value.0| == n
    decreases n
  {
    if n == 0 then Done(([], r))
    else
      var (s, r1) := GetU32(r);
      if r1.error then Rejected
      else
        var (ss, r2) :- ReadSizes(r1, n - 1);
        Done(([s as nat] + ss, r2))
  }

  /** The payload of job j: behind the size table, after the payloads before it. */
  function Payload(data: seq<u8>, start: nat, sizes: seq<nat>, j: nat): seq<u8>
    requires j < |sizes| && start + Sum(sizes) <= |data|
  {
    SumStep(sizes, j);
    SumMonotone(sizes, j + 1, |sizes|);
    assert sizes[..|sizes|] == sizes;
    data[start + Sum(sizes[..j])..start + Sum(sizes[..j]) + sizes[j]]
  }

  /** shared is the frequency table of the packet, if it has one. */
  datatype Parsed = Parsed(g: Grid, frameId: u32, codes: seq<u8>, mvs: seq<(int, int)>, shared: Option<seq<nat>>,
                           sizes: seq<nat>, start: nat)

  ghost predicate WellParsed(p: Parsed, data: seq<u8>)
  {
    && p.g.tileSize > 0 && |p.codes| == p.g.NumTiles() && |p.mvs| == |p.codes|
    && |p.sizes| == JobsBefore(p.codes, |p.codes|) && p.start + Sum(p.sizes) <= |data| && ValidShared(p.shared)
  }

  /** The dimensions a packet announces. */
  function GridOf(h: Header): Grid { Grid(h.width, h.height, h.tileSize) }

  /** Whether the packet's own tile grid covers its frame and its tiles fit the scratch buffers. */
  predicate Consistent(h: Header, capacity: nat)
  {
    var g := GridOf(h);
    g.tileSize > 0 && h.tilesX == g.TilesX() && h.tilesY == g.TilesY()
    && Min(g.tileSize, g.width) * Min(g.tileSize, g.height) <= capacity * capacity
  }

  /** Everything behind the header. */
  function ParseBody(r: Reader, g: Grid, frameId: u32, size: nat, hasTable: bool): (res: Outcome<Parsed>)
    requires g.tileSize > 0
  {
    var (codes, r1) :- ReadCodes(r, g.NumTiles());
    var (mvs, r2) :- ReadMotion(Align(r1), codes, 0);
    var (shared, r3) :- ReadShared(r2, hasTable);
    ParseSizes(r3, g, frameId, size, codes, mvs, shared)
  }

  /** Everything behind the shared table. */
  function ParseSizes(r: Reader, g: Grid, frameId: u32, size: nat, codes: seq<u8>, mvs: seq<(int, int)>,
                      shared: Option<seq<nat>>)
    : Outcome<Parsed>
  {
    var (n, r1) := GetU16(r);
    if r1.error || n != JobsBefore(codes, |codes|) then Rejected
    else
      var (sizes, r2) :- ReadSizes(r1, n);
      if r2.byte + Sum(sizes) > size then Rejected
      else Done(Parsed(g, frameId, codes, mvs, shared, sizes, r2.byte))
  }

  lemma ParseBodyShape(r: Reader, g: Grid, frameId: u32, data: seq<u8>, hasTable: bool)
    requires g.tileSize > 0 && ParseBody(r, g, frameId, |data|, hasTable).Done?
    ensures WellParsed(ParseBody(r, g, frameId, |data|, hasTable).value, data)
  {
  }

  ghost function TileResult(d: DecoderState, p: Parsed, data: seq<u8>, transform: CosTables, t: nat)
    : (res: Outcome<seq<Pixel>>)
    requires WellParsed(p, data) && |d.ref| == p.g.Area() && t < |p.codes|
    ensures res.Done? ==> |res.value| == TileArea(p.g, t)
  {
    TileBoxInside(p.g, t);
    var b := TileBox(p.g, t);
    if IsCoded(p.codes[t]) then
      JobInRange(p.codes, t);
      CodedTile(p.codes[t], Payload(data, p.start, p.sizes, JobsBefore(p.codes, t)), p.shared, transform, b)
    else Done(RepeatedTile(d, p.g, b, p.codes[t], p.mvs[t]))
  }

  lemma {:induction false} JobsMonotone(codes: seq<u8>, s: nat, t: nat)
    requires s <= t <= |codes|
    ensures JobsBefore(codes, s) <= JobsBefore(codes, t)
    decreases t
  {
    if s < t {
      JobsMonotone(codes, s, t - 1);
    }
  }

  lemma JobInRange(codes: seq<u8>, t: nat)
    requires t < |codes| && IsCoded(codes[t])
    ensures JobsBefore(codes, t) < JobsBefore(codes, |codes|)
  {
    JobsMonotone(codes, t + 1, |codes|);
  }

  /** The tiles so far and one more.  A tile outside the specification spoils the frame;
      otherwise one rejected tile rejects it. */
  function Joined(tiles: Outcome<seq<seq<Pixel>>>, tile: Outcome<seq<Pixel>>): Outcome<seq<seq<Pixel>>>
  {
    if tiles.Unspecified? || tile.Unspecified? then Unspecified
    else if tiles.Rejected? || tile.Rejected? then Rejected
    else Done(tiles.value + [tile.value])
  }

  ghost predicate Sized(g: Grid, tiles: seq<seq<Pixel>>)
  {
    && g.tileSize > 0 && |tiles| <= g.NumTiles()
    && forall t :: 0 <= t < |tiles| ==> |tiles[t]| == TileArea(g, t)
  }

  lemma JoinedSized(g: Grid, tiles: Outcome<seq<seq<Pixel>>>, tile: Outcome<seq<Pixel>>, n: nat)
    requires g.tileSize > 0 && n < g.NumTiles()
    requires tiles.Done? ==> |tiles.value| == n && Sized(g, tiles.value)
    requires tile.Done? ==> |tile.value| == TileArea(g, n)
    ensures Joined(tiles, tile).Done? ==> |Joined(tiles, tile).value| == n + 1 && Sized(g, Joined(tiles, tile).value)
  {
  }

  ghost function TileResults(d: DecoderState, p: Parsed, data: seq<u8>, transform: CosTables, n: nat)
    : (res: Outcome<seq<seq<Pixel>>>)
    requires WellParsed(p, data) && |d.ref| == p.g.Area() && n <= |p.codes|
    ensures res.Done? ==> |res.value| == n && Sized(p.g, res.value)
  {
    if n == 0 then Done([])
    else
      var tiles, tile := TileResults(d, p, data, transform, n - 1), TileResult(d, p, data, transform, n - 1);
      JoinedSized(p.g, tiles, tile, n - 1);
      Joined(tiles, tile)
  }

  datatype Decoding = Decoding(outcome: Outcome<seq<Pixel>>, next: DecoderState)

  /** decode(): what it shows and the state it leaves. */
  ghost function DecodePacket(d: DecoderState, data: seq<u8>, transform: CosTables): (res: Decoding)
    requires d.Valid()
  {
    if |data| < 16 then Decoding(Rejected, d)
    else
      var h := HeaderOf(data[..16]);
      if h.magic != OMNI_MAGIC then Decoding(Rejected, d)
      else
        var g, d1 := GridOf(h), Reshaped(d, GridOf(h));
        if !Consistent(h, d1.capacity) then Decoding(Unspecified, d1)
        else
          match ParseBody(Skip(NewReader(data), 16), g, h.frameId, |data|, h.HasSharedTable())
          case Rejected => Decoding(Rejected, d1)
          case Unspecified => Decoding(Unspecified, d1)
          case Done(p) =>
            ParseBodyShape(Skip(NewReader(data), 16), g, h.frameId, data, h.HasSharedTable());
            match TileResults(d1, p, data, transform, |p.codes|)
            case Rejected => Decoding(Rejected, d1)
            case Unspecified => Decoding(Unspecified, d1)
            case Done(tiles) =>
              var frame := PaintTiles(Resized([], g.Area()), g, tiles, |tiles|);
              Decoding(Done(frame), d1.(hasRef := true, ref := frame))
  }
}
