/** One frame through the encoder's layout and the decoder. */
module OmniFrames {
  import opened Words
  import opened Arithmetic
  import opened Bitstream
  import opened FrequencyTable
  import opened Frames
  import opened Color
  import opened Blocks
  import opened Tiles
  import opened FrameHeader
  import opened OmniFormat
  import opened OmniRoundTrip

  // ---- Parsing ----

  ghost function BodyBytes(codes: seq<u8>, mvs: seq<(int, int)>, sections: seq<seq<u8>>): seq<u8>
    requires |codes| == |mvs|
  {
    BitGroup(CodeFields(codes)) + (MotionBytes(codes, mvs, 0)
      + (Be16(ToU16(|sections|)) + (SizeBytes(sections) + Concat(sections))))
  }

  ghost predicate Sendable(codes: seq<u8>, mvs: seq<(int, int)>, sections: seq<seq<u8>>)
  {
    && (forall c :: c in codes ==> c < 8) && ValidMotion(codes, mvs) && AllSmall(sections)
    && |sections| == JobsBefore(codes, |codes|) < 0x1_0000
  }

  /** The count, the size table and the payloads, when they are the last thing in the data. */
  lemma TailRead(r: Reader, sections: seq<seq<u8>>, table: seq<u8>, payloads: seq<u8>)
    requires AllSmall(sections) && |sections| < 0x1_0000
    requires table == SizeBytes(sections) && payloads == Concat(sections)
    requires Has(r, Be16(ToU16(|sections|)) + (table + payloads))
    ensures GetU16(r) == (|sections|, Skip(r, 2))
    ensures ReadSizes(Skip(r, 2), |sections|) == Done((Lengths(sections), Skip(Skip(r, 2), |table|)))
    ensures Has(Skip(Skip(r, 2), |table|), payloads)
  {
    CountRead(r, |sections|, table + payloads);
    HasSplit(Skip(r, 2), table, payloads);
    SizesRead(Skip(r, 2), sections, |table|);
  }

  lemma CountRead(r: Reader, n: nat, more: seq<u8>)
    requires n < 0x1_0000 && Has(r, Be16(ToU16(n)) + more)
    ensures GetU16(r) == (n, Skip(r, 2)) && Has(Skip(r, 2), more)
  {
    HasSplit(r, Be16(ToU16(n)), more);
    U16Read(r, ToU16(n));
  }

  lemma ParseUnfold(r: Reader, g: Grid, frameId: u32, size: nat, codes: seq<u8>, r1: Reader, mvs: seq<(int, int)>,
                    r2: Reader, n: u16, r3: Reader, sizes: seq<nat>, r4: Reader)
    requires g.tileSize > 0 && |codes| == g.NumTiles()
    requires ReadCodes(r, g.NumTiles()) == Done((codes, r1))
    requires ReadMotion(Align(r1), codes, 0) == Done((mvs, r2))
    requires GetU16(r2) == (n, r3) && !r3.error && n == JobsBefore(codes, |codes|)
    requires ReadSizes(r3, n) == Done((sizes, r4)) && r4.byte + Sum(sizes) <= size
    ensures ParseBody(r, g, frameId, size, false) == Done(Parsed(g, frameId, codes, mvs, None, sizes, r4.byte))
  {
  }

  lemma FrontRead(r: Reader, codes: seq<u8>, mvs: seq<(int, int)>, modeMap: seq<u8>, motion: seq<u8>, tail: seq<u8>)
    returns (r1: Reader, r2: Reader)
    requires (forall c :: c in codes ==> c < 8) && ValidMotion(codes, mvs)
    requires modeMap == BitGroup(CodeFields(codes)) && motion == MotionBytes(codes, mvs, 0)
    requires Has(r, modeMap + (motion + tail))
    ensures ReadCodes(r, |codes|) == Done((codes, r1)) && ReadMotion(Align(r1), codes, 0) == Done((mvs, r2))
    ensures r2 == Skip(Skip(r, |modeMap|), |motion|) && Has(r2, tail)
  {
    HasSplit(r, modeMap, motion + tail);
    CodesRead(r, codes);
    r1 := ReadCodes(r, |codes|).value.1;
    HasSplit(Skip(r, |modeMap|), motion, tail);
    MotionRead(Skip(r, |modeMap|), codes, mvs, 0, |motion|);
    assert mvs[0..] == mvs;
    r2 := Skip(Skip(r, |modeMap|), |motion|);
  }

  lemma LastBytes(r: Reader, s: seq<u8>)
    requires Has(r, s) && r.byte + |s| == |r.data|
    ensures r.data[r.byte..] == s
  {
    assert r.data[r.byte..r.byte + |s|] == r.data[r.byte..];
  }

  lemma BodyRead(r: Reader, g: Grid, frameId: u32, codes: seq<u8>, mvs: seq<(int, int)>, sections: seq<seq<u8>>)
    returns (start: nat)
    requires g.tileSize > 0 && |codes| == g.NumTiles() && Sendable(codes, mvs, sections)
    requires Has(r, BodyBytes(codes, mvs, sections)) && r.byte + |BodyBytes(codes, mvs, sections)| == |r.data|
    ensures ParseBody(r, g, frameId, |r.data|, false)
         == Done(Parsed(g, frameId, codes, mvs, None, Lengths(sections), start))
    ensures start + |Concat(sections)| == |r.data| && r.data[start..] == Concat(sections)
  {
    start := PartsRead(r, g, frameId, codes, mvs, sections, BitGroup(CodeFields(codes)), MotionBytes(codes, mvs, 0),
                       SizeBytes(sections), Concat(sections));
  }

  lemma PartsRead(r: Reader, g: Grid, frameId: u32, codes: seq<u8>, mvs: seq<(int, int)>, sections: seq<seq<u8>>,
                  modeMap: seq<u8>, motion: seq<u8>, table: seq<u8>, payloads: seq<u8>)
    returns (start: nat)
    requires g.tileSize > 0 && |codes| == g.NumTiles() && Sendable(codes, mvs, sections)
    requires modeMap == BitGroup(CodeFields(codes)) && motion == MotionBytes(codes, mvs, 0)
    requires table == SizeBytes(sections) && payloads == Concat(sections)
    requires Has(r, modeMap + (motion + (Be16(ToU16(|sections|)) + (table + payloads))))
    requires r.byte + |modeMap| + |motion| + 2 + |table| + |payloads| == |r.data|
    ensures ParseBody(r, g, frameId, |r.data|, false)
         == Done(Parsed(g, frameId, codes, mvs, None, Lengths(sections), start))
    ensures start + |payloads| == |r.data| && r.data[start..] == payloads
  {
    var r1, r2 := FrontRead(r, codes, mvs, modeMap, motion, Be16(ToU16(|sections|)) + (table + payloads));
    TailRead(r2, sections, table, payloads);
    var r4 := Skip(Skip(r2, 2), |table|);
    start := r4.byte;
    ConcatLength(sections);
    LastBytes(r4, payloads);
    ParseUnfold(r, g, frameId, |r.data|, codes, r1, mvs, r2, |sections|, Skip(r2, 2), Lengths(sections), r4);
  }

  // ---- Tiles ----

  /** What a tile looks like after decoding, by the mode it was sent in. */
  ghost function Reconstruction(m: TileMode, q: Quality, w: nat, h: nat, tile: seq<Pixel>): (r: seq<Pixel>)
    requires |tile| == w * h && ValidQuality(q) && IsCoded(TileCode(m))
    ensures |r| == w * h
  {
    match m
    case LOSSLESS => OpaqueTile(tile)
    case NEAR_LOSSLESS => NearTile(ALONE, Alone(w, h, tile), w, h, tile, q.step)
    case LOSSY => LossyTile(q.transform, w, h, tile, q.qp)
  }

  lemma WholeHas(s: seq<u8>)
    ensures Has(NewReader(s), s)
  {
  }

  lemma PayloadDecodes(m: TileMode, q: Quality, b: Box, tile: seq<Pixel>)
    requires |tile| == b.w * b.h && FitsSection(b.w * b.h) && ValidQuality(q) && IsCoded(TileCode(m))
    ensures CodedTile(TileCode(m), TileBytes(m, q, b.w, b.h, tile), None, q.transform, b)
         == Done(Reconstruction(m, q, b.w, b.h, tile))
  {
    var s := TileBytes(m, q, b.w, b.h, tile);
    WholeHas(s);
    match m
    case LOSSLESS => LosslessRoundTrip(NewReader(s), ALONE, Alone(b.w, b.h, tile), b.w, b.h, tile);
    case NEAR_LOSSLESS => NearLosslessRead(NewReader(s), ALONE, Alone(b.w, b.h, tile), b.w, b.h, tile, q.step);
    case LOSSY => LossyRead(NewReader(s), q.transform, b.w, b.h, tile, q.qp);
  }

  /** Everything a frame is sent with. */
  datatype Sending = Sending(g: Grid, frame: seq<Pixel>, modes: seq<TileMode>, mvs: seq<(int, int)>, q: Quality)
  {
    ghost predicate Valid()
    {
      && ValidGrid(g) && |frame| == g.Area() && |modes| == |mvs| == g.NumTiles()
      && ValidQuality(q) && ValidMotion(Codes(modes), mvs)
    }
  }

  /** What the decoder, in state d, shows for tile t. */
  ghost function Shown(d: DecoderState, s: Sending, t: nat): (tile: seq<Pixel>)
    requires s.Valid() && |d.ref| == s.g.Area() && t < |s.modes|
    ensures |tile| == TileArea(s.g, t)
  {
    TileFits(s.g, t);
    var b := TileBox(s.g, t);
    if IsCoded(TileCode(s.modes[t])) then Reconstruction(s.modes[t], s.q, b.w, b.h, TileOf(s.frame, s.g, t))
    else RepeatedTile(d, s.g, b, TileCode(s.modes[t]), s.mvs[t])
  }

  ghost function ShownTiles(d: DecoderState, s: Sending, n: nat): (tiles: seq<seq<Pixel>>)
    requires s.Valid() && |d.ref| == s.g.Area() && n <= |s.modes|
    ensures |tiles| == n && Sized(s.g, tiles)
  {
    seq(n, t requires 0 <= t < n => Shown(d, s, t))
  }

  ghost function ShownFrame(d: DecoderState, s: Sending): (frame: seq<Pixel>)
    requires s.Valid() && |d.ref| == s.g.Area()
    ensures |frame| == s.g.Area()
  {
    PaintTiles(Resized([], s.g.Area()), s.g, ShownTiles(d, s, |s.modes|), |s.modes|)
  }

  ghost function SectionsOf(s: Sending): seq<seq<u8>>
    requires s.Valid()
  {
    Sections(Codes(s.modes), Payloads(s.g, s.frame, s.modes, s.q), |s.modes|)
  }

  lemma TileDecodes(d: DecoderState, s: Sending, p: Parsed, data: seq<u8>, t: nat)
    requires s.Valid() && |d.ref| == s.g.Area() && t < |s.modes|
    requires WellParsed(p, data) && p.g == s.g && p.codes == Codes(s.modes) && p.mvs == s.mvs && p.shared == None
    requires p.sizes == Lengths(SectionsOf(s))
    requires p.start + |Concat(SectionsOf(s))| == |data| && data[p.start..] == Concat(SectionsOf(s))
    ensures TileResult(d, p, data, s.q.transform, t) == Done(Shown(d, s, t))
  {
    TileFits(s.g, t);
    if IsCoded(p.codes[t]) {
      var payloads := Payloads(s.g, s.frame, s.modes, s.q);
      var j := JobsBefore(p.codes, t);
      PayloadsSmall(s.g, s.frame, s.modes, s.q);
      SectionOfJob(p.codes, payloads, t, |s.modes|, SectionsOf(s));
      PayloadIs(data, p.start, SectionsOf(s), j);
      PayloadDecodes(s.modes[t], s.q, TileBox(s.g, t), TileOf(s.frame, s.g, t));
    }
  }

  lemma {:induction false} TilesDecode(d: DecoderState, s: Sending, p: Parsed, data: seq<u8>, n: nat,
                                       tiles: seq<seq<Pixel>>)
    requires s.Valid() && |d.ref| == s.g.Area() && n <= |s.modes| && tiles == ShownTiles(d, s, n)
    requires WellParsed(p, data) && p.g == s.g && p.codes == Codes(s.modes) && p.mvs == s.mvs && p.shared == None
    requires p.sizes == Lengths(SectionsOf(s))
    requires p.start + |Concat(SectionsOf(s))| == |data| && data[p.start..] == Concat(SectionsOf(s))
    ensures TileResults(d, p, data, s.q.transform, n) == Done(tiles)
  {
    if n == 0 {
      assert tiles == [];
    } else {
      TilesDecode(d, s, p, data, n - 1, ShownTiles(d, s, n - 1));
      NextTileDecodes(d, s, p, data, n - 1, n, ShownTiles(d, s, n - 1), tiles);
    }
  }

  lemma NextTileDecodes(d: DecoderState, s: Sending, p: Parsed, data: seq<u8>, n: nat, next: nat,
                        front: seq<seq<Pixel>>, tiles: seq<seq<Pixel>>)
    requires s.Valid() && |d.ref| == s.g.Area() && n < |s.modes| && next == n + 1
    requires front == ShownTiles(d, s, n) && tiles == ShownTiles(d, s, next)
    requires WellParsed(p, data) && p.g == s.g && p.codes == Codes(s.modes) && p.mvs == s.mvs && p.shared == None
    requires p.sizes == Lengths(SectionsOf(s))
    requires p.start + |Concat(SectionsOf(s))| == |data| && data[p.start..] == Concat(SectionsOf(s))
    requires TileResults(d, p, data, s.q.transform, n) == Done(front)
    ensures TileResults(d, p, data, s.q.transform, next) == Done(tiles)
  {
    TileDecodes(d, s, p, data, n);
    ShownStep(d, s, n, front, tiles);
    ResultsStep(d, p, data, s.q.transform, n, next, front, Shown(d, s, n));
  }

  lemma ShownStep(d: DecoderState, s: Sending, n: nat, front: seq<seq<Pixel>>, tiles: seq<seq<Pixel>>)
    requires s.Valid() && |d.ref| == s.g.Area() && n < |s.modes|
    requires front == ShownTiles(d, s, n) && tiles == ShownTiles(d, s, n + 1)
    ensures tiles == front + [Shown(d, s, n)]
  {
  }

  lemma ResultsStep(d: DecoderState, p: Parsed, data: seq<u8>, transform: CosTables, n: nat,
                    next: nat, tiles: seq<seq<Pixel>>, tile: seq<Pixel>)
    requires WellParsed(p, data) && |d.ref| == p.g.Area() && n < |p.codes| && next == n + 1
    requires TileResults(d, p, data, transform, n) == Done(tiles)
    requires TileResult(d, p, data, transform, n) == Done(tile)
    ensures TileResults(d, p, data, transform, next) == Done(tiles + [tile])
  {
  }

  // ---- The packet ----

  function HeaderFor(g: Grid, frameId: u32, key: bool): Header
    requires g.tileSize > 0
  {
    Header(OMNI_MAGIC, frameId, ToU16(g.width), ToU16(g.height), KeyFlags(key), ToU8(g.tileSize),
           ToU16(g.TilesX()), ToU16(g.TilesY()))
  }

  ghost function Packet(s: Sending, frameId: u32, key: bool): seq<u8>
    requires s.Valid()
  {
    PacketBytes(HeaderFor(s.g, frameId, key), Codes(s.modes), s.mvs, SectionsOf(s))
  }

  /** The decoder's scratch buffers hold a tile of this grid, or will be sized for it. */
  ghost predicate Holds(d: DecoderState, g: Grid)
  {
    var c := Reshaped(d, g).capacity;
    Min(g.tileSize, g.width) * Min(g.tileSize, g.height) <= c * c
  }

  lemma GridFits(g: Grid)
    requires ValidGrid(g)
    ensures g.width < 0x1_0000 && g.height < 0x1_0000 && g.NumTiles() < 0x1_0000
  {
    CeilDiv(g.width, g.tileSize, 255);
    CeilDiv(g.height, g.tileSize, 255);
    MulMonotone(g.TilesX(), 255, g.TilesY());
  }

  lemma HeaderRead(g: Grid, frameId: u32, key: bool)
    requires ValidGrid(g)
    ensures var h := HeaderFor(g, frameId, key);
      HeaderOf(HeaderBytes(h)) == h && GridOf(h) == g && h.magic == OMNI_MAGIC && !h.HasSharedTable()
      && h.tilesX == g.TilesX() && h.tilesY == g.TilesY()
  {
    HeaderFields(g, frameId, key, g.TilesX(), g.TilesY());
    HeaderRoundTrip(HeaderFor(g, frameId, key));
  }

  lemma HeaderFields(g: Grid, frameId: u32, key: bool, tilesX: nat, tilesY: nat)
    requires ValidGrid(g) && tilesX == g.TilesX() && tilesY == g.TilesY()
    ensures var h := HeaderFor(g, frameId, key);
      GridOf(h) == g && h.magic == OMNI_MAGIC && !h.HasSharedTable()
      && h.tilesX == tilesX < 0x100 && h.tilesY == tilesY < 0x100
  {
    GridFits(g);
  }

  lemma SectionsSendable(s: Sending)
    requires s.Valid()
    ensures Sendable(Codes(s.modes), s.mvs, SectionsOf(s)) && |s.modes| == s.g.NumTiles()
  {
    PayloadsSmall(s.g, s.frame, s.modes, s.q);
    SectionsShape(Codes(s.modes), Payloads(s.g, s.frame, s.modes, s.q), |s.modes|);
    GridFits(s.g);
  }

  lemma BehindHeader(data: seq<u8>, head: seq<u8>, body: seq<u8>)
    requires data == head + body && |head| == 16
    ensures data[..16] == head && Has(Skip(NewReader(data), 16), body)
    ensures Skip(NewReader(data), 16).byte == 16 && Skip(NewReader(data), 16).data == data
  {
    assert data[16..16 + |body|] == body;
  }

  lemma PacketParses(s: Sending, frameId: u32, key: bool, data: seq<u8>) returns (p: Parsed)
    requires s.Valid() && data == Packet(s, frameId, key)
    ensures |data| >= 16 && HeaderOf(data[..16]) == HeaderFor(s.g, frameId, key)
    ensures ParseBody(Skip(NewReader(data), 16), s.g, frameId, |data|, false) == Done(p)
    ensures p.g == s.g && p.codes == Codes(s.modes) && p.mvs == s.mvs && p.shared == None
    ensures p.sizes == Lengths(SectionsOf(s))
    ensures p.start + |Concat(SectionsOf(s))| == |data| && data[p.start..] == Concat(SectionsOf(s))
  {
    var codes, sections := Codes(s.modes), SectionsOf(s);
    var body := BodyBytes(codes, s.mvs, sections);
    HeaderRead(s.g, frameId, key);
    BehindHeader(data, HeaderBytes(HeaderFor(s.g, frameId, key)), body);
    SectionsSendable(s);
    var start := BodyRead(Skip(NewReader(data), 16), s.g, frameId, codes, s.mvs, sections);
    p := Parsed(s.g, frameId, codes, s.mvs, None, Lengths(sections), start);
  }

  /** Main result: any decoder whose buffers hold the tiles accepts the packet and shows, tile
      by tile, what the tile's mode promises; that picture becomes its reference. */
  lemma PacketDecodes(d: DecoderState, s: Sending, frameId: u32, key: bool)
    requires d.Valid() && s.Valid() && Holds(d, s.g)
    ensures var d1 := Reshaped(d, s.g);
      && |d1.ref| == s.g.Area()
      && DecodePacket(d, Packet(s, frameId, key), s.q.transform)
           == Decoding(Done(ShownFrame(d1, s)), d1.(hasRef := true, ref := ShownFrame(d1, s)))
  {
    var d1, data := Reshaped(d, s.g), Packet(s, frameId, key);
    HeaderRead(s.g, frameId, key);
    var p := PacketParses(s, frameId, key, data);
    ParseBodyShape(Skip(NewReader(data), 16), s.g, frameId, data, false);
    TilesDecode(d1, s, p, data, |s.modes|, ShownTiles(d1, s, |s.modes|));
  }

  /** Room for the tiles is all a decoder needs, and without it there is no telling. */
  lemma DecodesExactlyWithRoom(d: DecoderState, s: Sending, frameId: u32, key: bool)
    requires d.Valid() && s.Valid()
    ensures DecodePacket(d, Packet(s, frameId, key), s.q.transform).outcome
         == if Holds(d, s.g) then Done(ShownFrame(Reshaped(d, s.g), s)) else Unspecified
  {
    if Holds(d, s.g) {
      PacketDecodes(d, s, frameId, key);
    } else {
      HeaderRead(s.g, frameId, key);
      BehindHeader(Packet(s, frameId, key), HeaderBytes(HeaderFor(s.g, frameId, key)),
                   BodyBytes(Codes(s.modes), s.mvs, SectionsOf(s)));
    }
  }

  /** The buffers are sized by the tiles of the packet that last changed the frame size, and stay
      so: whether a grid of that size still fits depends on the tiles of then. */
  lemma RoomIsKept(d: DecoderState, s: Sending, frameId: u32, key: bool, g: Grid)
    requires d.Valid() && s.Valid() && Holds(d, s.g) && (d.width != s.g.width || d.height != s.g.height)
    requires g.width == s.g.width && g.height == s.g.height
    ensures Holds(DecodePacket(d, Packet(s, frameId, key), s.q.transform).next, g)
        <==> Min(g.tileSize, g.width) * Min(g.tileSize, g.height) <= s.g.tileSize * s.g.tileSize
  {
    PacketDecodes(d, s, frameId, key);
  }
}
