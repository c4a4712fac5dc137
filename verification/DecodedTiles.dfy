/** What a decoder shows, pixel by pixel, for any packet it accepts: src/codec/omni/omni_decoder.cpp:45-163
    and :253-277. */
module DecodedTiles {
  import opened Words
  import opened Arithmetic
  import opened Bitstream
  import opened Frames
  import opened Blocks
  import opened Tiles
  import opened FrameHeader
  import opened OmniFormat

  /** The packet shows `frame`, and p is what its body says. */
  ghost predicate ShowsAs(d: DecoderState, data: seq<u8>, transform: CosTables, h: Header, p: Parsed, frame: seq<Pixel>)
    requires d.Valid()
  {
    && |data| >= 16 && h == HeaderOf(data[..16])
    && DecodePacket(d, data, transform).outcome == Done(frame)
    && h.tileSize > 0
    && ParseBody(Skip(NewReader(data), 16), GridOf(h), h.frameId, |data|, h.HasSharedTable()) == Done(p)
  }

  /** A packet that shows a frame starts with the magic bytes and has a body that parses. */
  lemma ShownIsParsed(d: DecoderState, data: seq<u8>, transform: CosTables, frame: seq<Pixel>)
    returns (h: Header, p: Parsed)
    requires d.Valid() && DecodePacket(d, data, transform).outcome == Done(frame)
    ensures ShowsAs(d, data, transform, h, p, frame)
    ensures FromBe32(data[0], data[1], data[2], data[3]) == 0x4F43_4F44
  {
    h := HeaderOf(data[..16]);
    p := ParseBody(Skip(NewReader(data), 16), GridOf(h), h.frameId, |data|, h.HasSharedTable()).value;
  }

  lemma JoinedParts(tiles: Outcome<seq<seq<Pixel>>>, tile: Outcome<seq<Pixel>>)
    requires Joined(tiles, tile).Done?
    ensures tiles.Done? && tile.Done? && Joined(tiles, tile).value == tiles.value + [tile.value]
  {
  }

  lemma LastResult(d: DecoderState, p: Parsed, data: seq<u8>, transform: CosTables, n: nat, last: nat,
                   tiles: Outcome<seq<seq<Pixel>>>, tile: Outcome<seq<Pixel>>)
    requires WellParsed(p, data) && |d.ref| == p.g.Area() && n == last + 1 <= |p.codes|
    requires tiles == TileResults(d, p, data, transform, last) && tile == TileResult(d, p, data, transform, last)
    ensures TileResults(d, p, data, transform, n) == Joined(tiles, tile)
  {
  }

  ghost function JoinAll(results: seq<Outcome<seq<Pixel>>>, n: nat): Outcome<seq<seq<Pixel>>>
    requires n <= |results|
  {
    if n == 0 then Done([]) else Joined(JoinAll(results, n - 1), results[n - 1])
  }

  lemma {:induction false} PartOfAll(results: seq<Outcome<seq<Pixel>>>, n: nat, t: nat)
    requires t < n <= |results| && JoinAll(results, n).Done?
    ensures |JoinAll(results, n).value| == n && results[t] == Done(JoinAll(results, n).value[t])
  {
    JoinedParts(JoinAll(results, n - 1), results[n - 1]);
    if n > 1 {
      PartOfAll(results, n - 1, if t < n - 1 then t else 0);
    }
  }

  ghost function AllResults(d: DecoderState, p: Parsed, data: seq<u8>, transform: CosTables)
    : (results: seq<Outcome<seq<Pixel>>>)
    requires WellParsed(p, data) && |d.ref| == p.g.Area()
    ensures |results| == |p.codes|
  {
    seq(|p.codes|, k requires 0 <= k < |p.codes| => TileResult(d, p, data, transform, k))
  }

  lemma ResultAt(d: DecoderState, p: Parsed, data: seq<u8>, transform: CosTables, results: seq<Outcome<seq<Pixel>>>,
                 k: nat)
    requires WellParsed(p, data) && |d.ref| == p.g.Area() && k < |p.codes|
    requires results == AllResults(d, p, data, transform)
    ensures results[k] == TileResult(d, p, data, transform, k)
  {
  }

  lemma OneMoreJoined(d: DecoderState, p: Parsed, data: seq<u8>, transform: CosTables, n: nat, last: nat,
                      results: seq<Outcome<seq<Pixel>>>)
    requires WellParsed(p, data) && |d.ref| == p.g.Area() && n == last + 1 <= |p.codes| == |results|
    requires results == AllResults(d, p, data, transform)
    requires TileResults(d, p, data, transform, last) == JoinAll(results, last)
    ensures TileResults(d, p, data, transform, n) == JoinAll(results, n)
  {
    ResultAt(d, p, data, transform, results, last);
    LastResult(d, p, data, transform, n, last, JoinAll(results, last), results[last]);
  }

  lemma {:induction false} ResultsAreJoined(d: DecoderState, p: Parsed, data: seq<u8>, transform: CosTables, n: nat,
                                            results: seq<Outcome<seq<Pixel>>>)
    requires WellParsed(p, data) && |d.ref| == p.g.Area() && n <= |p.codes| == |results|
    requires results == AllResults(d, p, data, transform)
    ensures TileResults(d, p, data, transform, n) == JoinAll(results, n)
  {
    if n > 0 {
      var last: nat := n - 1;
      ResultsAreJoined(d, p, data, transform, last, results);
      OneMoreJoined(d, p, data, transform, n, last, results);
    }
  }

  lemma TileOfResults(d: DecoderState, p: Parsed, data: seq<u8>, transform: CosTables, t: nat, all: seq<seq<Pixel>>)
    requires WellParsed(p, data) && |d.ref| == p.g.Area() && t < |p.codes|
    requires TileResults(d, p, data, transform, |p.codes|) == Done(all)
    ensures |all| == |p.codes| && TileResult(d, p, data, transform, t) == Done(all[t])
  {
    var results := AllResults(d, p, data, transform);
    ResultsAreJoined(d, p, data, transform, |p.codes|, results);
    PartOfAll(results, |p.codes|, t);
  }

  lemma ShownTiles(d: DecoderState, data: seq<u8>, transform: CosTables, h: Header, p: Parsed, frame: seq<Pixel>,
                   d1: DecoderState)
    returns (tiles: seq<seq<Pixel>>)
    requires d.Valid() && ShowsAs(d, data, transform, h, p, frame) && d1 == Reshaped(d, GridOf(h))
    ensures WellParsed(p, data) && p.g == GridOf(h) && |d1.ref| == p.g.Area() && Fitting(p.g, tiles)
    ensures TileResults(d1, p, data, transform, |p.codes|) == Done(tiles)
    ensures frame == PaintTiles(Resized([], p.g.Area()), p.g, tiles, |tiles|)
  {
    ParseBodyShape(Skip(NewReader(data), 16), GridOf(h), h.frameId, data, h.HasSharedTable());
    tiles := TileResults(d1, p, data, transform, |p.codes|).value;
  }

  /** The tiles of the frame shown are the tiles the packet decodes to. */
  lemma TileShown(d: DecoderState, data: seq<u8>, transform: CosTables, h: Header, p: Parsed, frame: seq<Pixel>,
                  d1: DecoderState, t: nat)
    requires d.Valid() && ShowsAs(d, data, transform, h, p, frame) && d1 == Reshaped(d, GridOf(h))
    requires t < |p.codes|
    ensures WellParsed(p, data) && p.g == GridOf(h) && |frame| == |d1.ref| == p.g.Area() && Inside(TileBox(p.g, t), p.g)
    ensures TileResult(d1, p, data, transform, t) == Done(Cut(frame, p.g, TileBox(p.g, t)))
  {
    var tiles := ShownTiles(d, data, transform, h, p, frame, d1);
    TileOfResults(d1, p, data, transform, t, tiles);
    TilePainted(Resized([], p.g.Area()), p.g, tiles, |tiles|, t);
  }

  /** The decoder has shown a frame of this size. */
  ghost predicate Remembers(d: DecoderState, h: Header) { d.hasRef && d.width == h.width && d.height == h.height }

  /** Where a pixel of a COPY tile with vector (mx, my) comes from. */
  ghost predicate FromInside(h: Header, b: Box, y: nat, mx: int, my: int)
  {
    0 <= y + my < h.height && 0 <= b.x + mx && b.x + mx + b.w <= h.width
  }

  /** Main result: in any frame a decoder shows, a SKIP tile is as in the frame shown before; a COPY tile is
      that frame moved by the vector, with four zero bytes where the row, or any column of the tile, would
      lie outside; and both are zeros when no frame of this size was shown before. */
  lemma RepeatedPixels(d: DecoderState, data: seq<u8>, transform: CosTables, h: Header, p: Parsed, frame: seq<Pixel>,
                       t: nat, b: Box, x: nat, y: nat, mx: int, my: int, at: nat, from: int)
    requires d.Valid() && ShowsAs(d, data, transform, h, p, frame)
    requires t < |p.codes| && |p.mvs| == |p.codes| && p.codes[t] <= 1 && p.mvs[t] == (mx, my)
    requires t < GridOf(h).NumTiles() && b == TileBox(GridOf(h), t) && x < h.width && y < h.height && Covers(b, x, y)
    requires at == y * h.width + x && from == (y + my) * h.width + (x + mx)
    ensures at < |frame|
    ensures !Remembers(d, h) ==> frame[at] == Pixel(0, 0, 0, 0)
    ensures Remembers(d, h) && p.codes[t] == 0 ==> |d.ref| == |frame| && frame[at] == d.ref[at]
    ensures Remembers(d, h) && p.codes[t] == 1 && !FromInside(h, b, y, mx, my) ==> frame[at] == Pixel(0, 0, 0, 0)
    ensures Remembers(d, h) && p.codes[t] == 1 && FromInside(h, b, y, mx, my) ==>
      0 <= from < |d.ref| && frame[at] == d.ref[from]
  {
    var g, d1 := GridOf(h), Reshaped(d, GridOf(h));
    TileShown(d, data, transform, h, p, frame, d1, t);
    RepeatedInFrame(d1, g, b, p.codes[t], mx, my, frame, t, x, y, at, from);
  }

  lemma RepeatedInFrame(d: DecoderState, g: Grid, b: Box, code: nat, mx: int, my: int, frame: seq<Pixel>, t: nat,
                        x: nat, y: nat, at: nat, from: int)
    requires g.tileSize > 0 && |d.ref| == |frame| == g.Area() && t < g.NumTiles() && b == TileBox(g, t) && Inside(b, g)
    requires x < g.width && y < g.height && Covers(b, x, y) && code <= 1
    requires RepeatedTile(d, g, b, code, (mx, my)) == Cut(frame, g, b)
    requires at == y * g.width + x && from == (y + my) * g.width + (x + mx)
    ensures at < |frame|
    ensures !d.hasRef ==> frame[at] == Pixel(0, 0, 0, 0)
    ensures d.hasRef && code == 0 ==> frame[at] == d.ref[at]
    ensures var inside := 0 <= y + my < g.height && 0 <= b.x + mx && b.x + mx + b.w <= g.width;
      && (d.hasRef && code == 1 && !inside ==> frame[at] == Pixel(0, 0, 0, 0))
      && (d.hasRef && code == 1 && inside ==> 0 <= from < |d.ref| && frame[at] == d.ref[from])
  {
    PixelOfTile(g, frame, t, x, y);
    PixelOfTile(g, d.ref, t, x, y);
    RepeatedAt(d, g, b, code, mx, my, y - b.y, x - b.x, (y - b.y) * b.w + (x - b.x));
    if 0 <= y + my < g.height && 0 <= b.x + mx && b.x + mx + b.w <= g.width {
      Position(g.width, g.height, y + my, x + mx);
    }
  }

  lemma RepeatedAt(d: DecoderState, g: Grid, b: Box, code: nat, mx: int, my: int, row: nat, col: nat, i: nat)
    requires |d.ref| == g.Area() && Inside(b, g) && row < b.h && col < b.w && code <= 1 && i == row * b.w + col
    ensures i < b.w * b.h
    ensures !d.hasRef ==> RepeatedTile(d, g, b, code, (mx, my))[i] == Pixel(0, 0, 0, 0)
    ensures d.hasRef && code == 0 ==> RepeatedTile(d, g, b, code, (mx, my))[i] == Cut(d.ref, g, b)[i]
    ensures d.hasRef && code == 1 ==>
      RepeatedTile(d, g, b, code, (mx, my))[i] == CopiedPixel(d.ref, g, b, mx, my, row, col)
  {
    Position(b.w, b.h, row, col);
  }

  /** No mode beyond the five is ever shown. */
  lemma KnownModesOnly(d: DecoderState, data: seq<u8>, transform: CosTables, h: Header, p: Parsed, frame: seq<Pixel>,
                       t: nat)
    requires d.Valid() && ShowsAs(d, data, transform, h, p, frame) && t < |p.codes|
    ensures p.codes[t] <= 4
  {
    TileShown(d, data, transform, h, p, frame, Reshaped(d, GridOf(h)), t);
  }

  /** A frame without a magic number, or without a header, leaves the decoder as it was. */
  lemma ForeignIsRefused(d: DecoderState, data: seq<u8>, transform: CosTables)
    requires d.Valid()
    requires |data| < 16 || FromBe32(data[0], data[1], data[2], data[3]) != 0x4F43_4F44
    ensures DecodePacket(d, data, transform) == Decoding(Rejected, d)
  {
  }

  /** The frame shown is the one remembered; when none is shown the decoder remembers what it did, or
      nothing if the packet was of another size. */
  lemma ShownIsKept(d: DecoderState, data: seq<u8>, transform: CosTables, h: Header, next: DecoderState)
    requires d.Valid() && |data| >= 16 && h == HeaderOf(data[..16]) && next == DecodePacket(d, data, transform).next
    ensures forall frame :: DecodePacket(d, data, transform).outcome == Done(frame) ==>
      next.hasRef && next.ref == frame && next.width == h.width && next.height == h.height
    ensures !DecodePacket(d, data, transform).outcome.Done? ==>
      next == d || (!next.hasRef && (d.width != h.width || d.height != h.height))
  {
  }
}
