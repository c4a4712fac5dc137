/** OmniCodecEncoder, src/codec/omni/omni_encoder.cpp:111-391, against the packet and the state
    of the run model. */
module OmniEncoding {
  import opened Words
  import opened Bitstream
  import opened Frames
  import opened Blocks
  import opened Tiles
  import opened FrameHeader
  import opened OmniFormat
  import opened OmniFrames
  import opened OmniRuns
  import opened ScrollDetection
  import opened TileEncoding

  // ---- Decisions ----

  method ComputeTileHashes(c: Config, frame: seq<Pixel>) returns (hashes: seq<int>)
    requires c.Valid() && |frame| == c.g.Area()
    ensures hashes == TileHashes(c, frame)
  {
    hashes := [];
    for t := 0 to c.g.NumTiles()
      invariant |hashes| == t && forall s :: 0 <= s < t ==> hashes[s] == (c.hash)(TileOf(frame, c.g, s))
    {
      TileFits(c.g, t);
      hashes := hashes + [(c.hash)(Cut(frame, c.g, TileBox(c.g, t)))];
    }
  }

  /** The mode and the vector of one tile of a P-frame. */
  method DecideTile(c: Config, frame: seq<Pixel>, hash: int, prevHash: int, content: ContentType, bitrate: u32,
                    detector: ScrollDetector, t: nat, ghost e: EncoderState)
    returns (mode: TileMode, mv: (int, int))
    requires e.Valid(c) && |frame| == c.g.Area() && t < c.g.NumTiles() && !IsKey(e)
    requires hash == (c.hash)(TileOf(frame, c.g, t)) && prevHash == e.hashes[t] && bitrate == e.bitrate
    requires detector.Valid() && detector.hash == c.hash && detector.g == c.g
    requires c.scroll ==> detector.refRowHashes[..] == RowHashes(c.hash, e.ref, c.g)
    ensures mode == ModeOfTile(c, e, frame, content, t) && mv == MotionOfTile(c, e.ref, frame, mode, t)
  {
    mv := (0, 0);
    if hash == prevHash {
      mode := SKIP;
      return;
    }
    var isScrolled := false;
    if c.scroll {
      var b := TileBox(c.g, t);
      var scroll := detector.DetectTileScroll(frame, b.y, b.h);
      isScrolled := scroll.detected;
      if isScrolled {
        mv := (scroll.mvX, scroll.mvY);
      }
    }
    mode := DecideTileMode(content, isScrolled, bitrate);
  }

  method DecideModes(c: Config, frame: seq<Pixel>, hashes: seq<int>, prevHashes: seq<int>, content: seq<ContentType>,
                     bitrate: u32, detector: ScrollDetector, ghost e: EncoderState)
    returns (modes: seq<TileMode>, mvs: seq<(int, int)>)
    requires e.Valid(c) && |frame| == c.g.Area() && |content| == c.g.NumTiles() && !IsKey(e)
    requires hashes == TileHashes(c, frame) && prevHashes == e.hashes && bitrate == e.bitrate
    requires detector.Valid() && detector.hash == c.hash && detector.g == c.g
    requires c.scroll ==> detector.refRowHashes[..] == RowHashes(c.hash, e.ref, c.g)
    ensures modes == FrameModes(c, e, frame, content) && mvs == FrameMotion(c, e.ref, frame, modes)
  {
    modes, mvs := [], [];
    for t := 0 to |content|
      invariant |modes| == |mvs| == t
      invariant forall s :: 0 <= s < t ==> modes[s] == ModeOfTile(c, e, frame, content[s], s)
      invariant forall s :: 0 <= s < t ==> mvs[s] == MotionOfTile(c, e.ref, frame, modes[s], s)
    {
      var mode, mv := DecideTile(c, frame, hashes[t], prevHashes[t], content[t], bitrate, detector, t, e);
      modes, mvs := modes + [mode], mvs + [mv];
    }
  }

  // ---- Layout ----

  lemma FieldsGrow(codes: seq<u8>, i: nat)
    requires i < |codes|
    ensures CodeFields(codes)[..i + 1] == CodeFields(codes)[..i] + [Bits(codes[i], 3)]
  {
  }

  method WriteMode(code: u8, bs: BitstreamWriter, ghost w: Writer, ghost fs: seq<Field>)
    requires bs.Valid() && bs.Value() == PutAll(w, fs)
    modifies bs
    ensures bs.Valid() && bs.Value() == PutAll(w, fs + [Bits(code, 3)])
  {
    ghost var now := bs.Value();
    bs.WriteBits(code, 3);
    PutAllSplit(w, fs, [Bits(code, 3)]);
    OneFieldPut(now, Bits(code, 3));
  }

  /** The mode map, padded to a byte. */
  method WriteModeMap(codes: seq<u8>, bs: BitstreamWriter)
    requires bs.Valid() && bs.Value().pending == []
    modifies bs
    ensures bs.Valid() && bs.Value() == Writer(old(bs.Value()).buf + BitGroup(CodeFields(codes)), [])
  {
    ghost var w, all := bs.Value(), CodeFields(codes);
    for i := 0 to |codes|
      invariant bs.Valid() && bs.Value() == PutAll(w, all[..i])
    {
      FieldsGrow(codes, i);
      WriteMode(codes[i], bs, w, all[..i]);
    }
    assert all[..|codes|] == all;
    bs.FlushBits();
    MapBehind(w.buf, all);
  }

  lemma MapBehind(buf: seq<u8>, fs: seq<Field>)
    requires forall f :: f in fs ==> f.Bits?
    ensures Flush(PutAll(Writer(buf, []), fs)) == Writer(buf + BitGroup(fs), [])
  {
    BitsBehind(buf, fs, []);
    assert Flush(PutAll(Writer(buf, []), fs)).buf + [] == Flush(PutAll(Writer(buf, []), fs)).buf;
    assert BitGroup(fs) + [] == BitGroup(fs);
  }

  method WriteVector(code: u8, mv: (int, int), bs: BitstreamWriter)
    requires bs.Valid() && bs.Value().pending == []
    modifies bs
    ensures bs.Valid() && bs.Value() == Writer(old(bs.Value()).buf + VectorBytes(code, mv), [])
  {
    ghost var buf := bs.Value().buf;
    if code == 1 {
      bs.WriteU8(ToU8(mv.0));
      bs.WriteU16(ToU16(mv.1));
      assert buf + [ToU8(mv.0)] + Be16(ToU16(mv.1)) == buf + VectorBytes(code, mv);
    } else {
      assert buf + [] == buf;
    }
  }

  function VectorBytes(code: u8, mv: (int, int)): seq<u8>
  {
    if code == 1 then [ToU8(mv.0)] + Be16(ToU16(mv.1)) else []
  }

  lemma MotionStep(codes: seq<u8>, mvs: seq<(int, int)>, t: nat, buf: seq<u8>)
    requires t < |codes| == |mvs|
    ensures buf + MotionBytes(codes, mvs, t) == buf + VectorBytes(codes[t], mvs[t]) + MotionBytes(codes, mvs, t + 1)
  {
    Regroup(buf, VectorBytes(codes[t], mvs[t]), MotionBytes(codes, mvs, t + 1));
  }

  method WriteMotion(codes: seq<u8>, mvs: seq<(int, int)>, bs: BitstreamWriter)
    requires |codes| == |mvs| && bs.Valid() && bs.Value().pending == []
    modifies bs
    ensures bs.Valid() && bs.Value() == Writer(old(bs.Value()).buf + MotionBytes(codes, mvs, 0), [])
  {
    ghost var goal := bs.Value().buf + MotionBytes(codes, mvs, 0);
    for t := 0 to |codes|
      invariant bs.Valid() && bs.Value().pending == []
      invariant bs.Value().buf + MotionBytes(codes, mvs, t) == goal
    {
      MotionStep(codes, mvs, t, bs.Value().buf);
      WriteVector(codes[t], mvs[t], bs);
    }
    assert bs.Value().buf + [] == bs.Value().buf;
  }

  lemma SizeStep(streams: seq<seq<u8>>, j: nat, buf: seq<u8>)
    requires j < |streams|
    ensures buf + SizeBytes(streams[j..]) == buf + Be32(ToU32(|streams[j]|)) + SizeBytes(streams[j + 1..])
  {
    assert streams[j..][1..] == streams[j + 1..];
    Regroup(buf, Be32(ToU32(|streams[j]|)), SizeBytes(streams[j + 1..]));
  }

  lemma ConcatStep(streams: seq<seq<u8>>, j: nat)
    requires j < |streams|
    ensures Concat(streams[..j + 1]) == Concat(streams[..j]) + streams[j]
  {
    assert streams[..j + 1][..j] == streams[..j];
  }

  method WriteSizes(streams: seq<seq<u8>>, bs: BitstreamWriter)
    requires bs.Valid() && bs.Value().pending == []
    modifies bs
    ensures bs.Valid() && bs.Value() == Writer(old(bs.Value()).buf + SizeBytes(streams), [])
  {
    ghost var goal := bs.Value().buf + SizeBytes(streams);
    assert streams[0..] == streams;
    for j := 0 to |streams|
      invariant bs.Valid() && bs.Value().pending == []
      invariant bs.Value().buf + SizeBytes(streams[j..]) == goal
    {
      SizeStep(streams, j, bs.Value().buf);
      bs.WriteU32(ToU32(|streams[j]|));
    }
    assert bs.Value().buf + [] == bs.Value().buf;
  }

  method WriteStreams(streams: seq<seq<u8>>, bs: BitstreamWriter)
    requires bs.Valid() && bs.Value().pending == []
    modifies bs
    ensures bs.Valid() && bs.Value() == Writer(old(bs.Value()).buf + Concat(streams), [])
  {
    ghost var buf := bs.Value().buf;
    assert buf + [] == buf;
    for j := 0 to |streams|
      invariant bs.Valid() && bs.Value() == Writer(buf + Concat(streams[..j]), [])
    {
      ConcatStep(streams, j);
      Regroup(buf, Concat(streams[..j]), streams[j]);
      if streams[j] != [] {
        bs.WriteBytes(streams[j]);
      }
    }
    assert streams[..|streams|] == streams;
  }

  /** The count, the size table and the payloads. */
  method WriteTail(streams: seq<seq<u8>>, bs: BitstreamWriter)
    requires bs.Valid() && bs.Value().pending == []
    modifies bs
    ensures bs.Valid()
    ensures bs.Value()
          == Writer(old(bs.Value()).buf + (Be16(ToU16(|streams|)) + (SizeBytes(streams) + Concat(streams))), [])
  {
    ghost var buf := bs.Value().buf;
    bs.WriteU16(ToU16(|streams|));
    WriteSizes(streams, bs);
    WriteStreams(streams, bs);
    Regroup(buf + Be16(ToU16(|streams|)), SizeBytes(streams), Concat(streams));
    Regroup(buf, Be16(ToU16(|streams|)), SizeBytes(streams) + Concat(streams));
  }

  /** Everything behind the header. */
  method WriteBody(codes: seq<u8>, mvs: seq<(int, int)>, streams: seq<seq<u8>>, bs: BitstreamWriter)
    requires |codes| == |mvs| && bs.Valid() && bs.Value().pending == []
    modifies bs
    ensures bs.Valid() && bs.Value() == Writer(old(bs.Value()).buf + BodyBytes(codes, mvs, streams), [])
  {
    ghost var buf, motion, tail := bs.Value().buf, MotionBytes(codes, mvs, 0),
      Be16(ToU16(|streams|)) + (SizeBytes(streams) + Concat(streams));
    WriteModeMap(codes, bs);
    WriteMotion(codes, mvs, bs);
    WriteTail(streams, bs);
    Regroup(buf + BitGroup(CodeFields(codes)), motion, tail);
    Regroup(buf, BitGroup(CodeFields(codes)), motion + tail);
  }

  // ---- Tiles ----

  method LosslessStream(frame: seq<Pixel>, g: Grid, b: Box, enc: TileEncoder) returns (stream: seq<u8>)
    requires |frame| == g.Area() && Inside(b, g) && FitsSection(b.w * b.h)
    modifies enc.rans, enc.rans.stack
    ensures enc.rans.stack == old(enc.rans.stack) || fresh(enc.rans.stack)
    ensures stream == LosslessBytes(ALONE, Alone(b.w, b.h, Cut(frame, g, b)), b.w, b.h, Cut(frame, g, b))
  {
    var tileBs := new BitstreamWriter();
    LosslessFromScratch(ALONE, b.w, b.h, Cut(frame, g, b));
    enc.EncodeLossless(frame, g, b, g.width, ALONE, tileBs);
    stream := tileBs.buf;
  }

  method NearLosslessStream(frame: seq<Pixel>, g: Grid, b: Box, maxError: int, enc: TileEncoder)
    returns (stream: seq<u8>)
    requires |frame| == g.Area() && Inside(b, g) && FitsSection(b.w * b.h)
    modifies enc.rans, enc.rans.stack
    ensures enc.rans.stack == old(enc.rans.stack) || fresh(enc.rans.stack)
    ensures stream
          == NearLosslessBytes(ALONE, Alone(b.w, b.h, Cut(frame, g, b)), b.w, b.h, Cut(frame, g, b), Max(1, maxError))
  {
    var tileBs := new BitstreamWriter();
    NearLosslessFromScratch(ALONE, b.w, b.h, Cut(frame, g, b), Max(1, maxError));
    enc.EncodeNearLossless(frame, g, b, g.width, ALONE, maxError, tileBs);
    stream := tileBs.buf;
  }

  method LossyStream(frame: seq<Pixel>, g: Grid, b: Box, qp: nat, t: CosTables, enc: TileEncoder)
    returns (stream: seq<u8>)
    requires |frame| == g.Area() && Inside(b, g) && FitsSection(b.w * b.h)
    modifies enc.rans, enc.rans.stack
    ensures enc.rans.stack == old(enc.rans.stack) || fresh(enc.rans.stack)
    ensures stream == LossyBytes(t, b.w, b.h, Cut(frame, g, b), qp)
  {
    var tileBs := new BitstreamWriter();
    LossyFromScratch(t, b.w, b.h, Cut(frame, g, b), qp);
    enc.EncodeLossy(frame, g, b, g.width, qp, t, tileBs);
    stream := tileBs.buf;
  }

  lemma BytesByMode(m: TileMode, q: Quality, w: nat, h: nat, tile: seq<Pixel>)
    requires |tile| == w * h && FitsSection(w * h) && ValidQuality(q)
    ensures m == LOSSLESS ==> TileBytes(m, q, w, h, tile) == LosslessBytes(ALONE, Alone(w, h, tile), w, h, tile)
    ensures m == NEAR_LOSSLESS ==>
      TileBytes(m, q, w, h, tile) == NearLosslessBytes(ALONE, Alone(w, h, tile), w, h, tile, q.step)
    ensures m == LOSSY ==> TileBytes(m, q, w, h, tile) == LossyBytes(q.transform, w, h, tile, q.qp)
    ensures m == SKIP || m == COPY ==> TileBytes(m, q, w, h, tile) == []
  {
  }

  /** One tile, into a stream of its own. */
  method EncodeTile(frame: seq<Pixel>, g: Grid, b: Box, mode: TileMode, maxError: int, q: Quality, enc: TileEncoder)
    returns (stream: seq<u8>)
    requires |frame| == g.Area() && Inside(b, g) && FitsSection(b.w * b.h) && ValidQuality(q)
    requires q.step == Max(1, maxError)
    modifies enc.rans, enc.rans.stack
    ensures enc.rans.stack == old(enc.rans.stack) || fresh(enc.rans.stack)
    ensures stream == TileBytes(mode, q, b.w, b.h, Cut(frame, g, b))
  {
    BytesByMode(mode, q, b.w, b.h, Cut(frame, g, b));
    match mode {
      case LOSSLESS => stream := LosslessStream(frame, g, b, enc);
      case NEAR_LOSSLESS => stream := NearLosslessStream(frame, g, b, maxError, enc);
      case LOSSY => stream := LossyStream(frame, g, b, q.qp, q.transform, enc);
      case _ => stream := [];
    }
  }

  method EncodeTileAt(frame: seq<Pixel>, g: Grid, t: nat, mode: TileMode, maxError: int, q: Quality, enc: TileEncoder)
    returns (stream: seq<u8>)
    requires ValidGrid(g) && |frame| == g.Area() && t < g.NumTiles() && ValidQuality(q) && q.step == Max(1, maxError)
    modifies enc.rans, enc.rans.stack
    ensures enc.rans.stack == old(enc.rans.stack) || fresh(enc.rans.stack)
    ensures stream == SectionOf(g, frame, mode, q, t)
  {
    TileFits(g, t);
    stream := EncodeTile(frame, g, TileBox(g, t), mode, maxError, q, enc);
  }

  /** The payloads of a list of tiles. */
  ghost function Picked(payloads: seq<seq<u8>>, jobs: seq<nat>): (s: seq<seq<u8>>)
    requires forall j :: 0 <= j < |jobs| ==> jobs[j] < |payloads|
    ensures |s| == |jobs|
  {
    seq(|jobs|, j requires 0 <= j < |jobs| => payloads[jobs[j]])
  }

  lemma {:induction false} SectionsArePicked(codes: seq<u8>, payloads: seq<seq<u8>>, t: nat)
    requires t <= |codes| == |payloads|
    ensures Sections(codes, payloads, t) == Picked(payloads, JobsOf(codes, t))
  {
    if t > 0 {
      SectionsArePicked(codes, payloads, t - 1);
    }
  }

  method CollectJobs(codes: seq<u8>) returns (jobs: seq<nat>)
    ensures jobs == JobsOf(codes, |codes|)
  {
    jobs := [];
    for t := 0 to |codes|
      invariant jobs == JobsOf(codes, t)
    {
      if IsCoded(codes[t]) {
        jobs := jobs + [t];
      }
    }
  }

  method EncodeJobs(c: Config, frame: seq<Pixel>, modes: seq<TileMode>, qp: nat, enc: TileEncoder, ghost s: Sending)
    returns (streams: seq<seq<u8>>)
    requires c.Valid() && s.Valid() && s.g == c.g && s.frame == frame && s.modes == modes
    requires s.q == Quality(c.Step(), qp, c.transform)
    modifies enc.rans, enc.rans.stack
    ensures enc.rans.stack == old(enc.rans.stack) || fresh(enc.rans.stack)
    ensures streams == SectionsOf(s)
  {
    var codes := Codes(modes);
    var jobs := CollectJobs(codes);
    ghost var payloads := Payloads(s.g, frame, modes, s.q);
    streams := [];
    for j := 0 to |jobs|
      invariant enc.rans.stack == old(enc.rans.stack) || fresh(enc.rans.stack)
      invariant |streams| == j && forall i :: 0 <= i < j ==> streams[i] == payloads[jobs[i]]
    {
      var t := jobs[j];
      var stream := EncodeTileAt(frame, c.g, t, modes[t], c.maxError, Quality(c.Step(), qp, c.transform), enc);
      streams := streams + [stream];
    }
    SectionsArePicked(codes, payloads, |codes|);
  }

  /** Header and body in one stream. */
  method WritePacket(g: Grid, frameId: u32, isKeyFrame: bool, codes: seq<u8>, mvs: seq<(int, int)>,
                     streams: seq<seq<u8>>)
    returns (data: seq<u8>)
    requires g.tileSize > 0 && |codes| == |mvs|
    ensures data == PacketBytes(HeaderFor(g, frameId, isKeyFrame), codes, mvs, streams)
  {
    var bs := new BitstreamWriter();
    var header := HeaderBytes(HeaderFor(g, frameId, isKeyFrame));
    assert [] + header == header;
    bs.WriteBytes(header);
    WriteBody(codes, mvs, streams, bs);
    data := bs.buf;
  }

  // ---- The encoder ----

  datatype EncodedPacket = EncodedPacket(data: seq<u8>, frameId: u32, isKeyFrame: bool)

  class OmniEncoder {
    const c: Config
    const detector: ScrollDetector
    const tileEncoder: TileEncoder
    var refFrame: seq<Pixel>
    var hasRef: bool
    var prevHashes: seq<int>
    var keyRequested: bool
    var frameCounter: u32
    var bitrate: u32
    var baseQP: nat

    ghost predicate Valid()
      reads this, detector
    {
      && Value().Valid(c)
      && detector.Valid() && detector.hash == c.hash && detector.g == c.g
    }

    function Value(): EncoderState
      reads this
    {
      EncoderState(refFrame, hasRef, prevHashes, keyRequested, frameCounter, bitrate, baseQP)
    }

    constructor (c: Config, bitrate: u32)
      requires c.Valid()
      ensures Valid() && this.c == c && Value() == InitialEncoder(c, bitrate)
    {
      this.c := c;
      detector := new ScrollDetector(c.hash, c.g);
      tileEncoder := new TileEncoder();
      refFrame, hasRef, prevHashes := Resized([], c.g.Area()), false, seq(c.g.NumTiles(), _ => 0);
      keyRequested, frameCounter, this.bitrate, baseQP := true, 0, bitrate, 26;
    }

    method RequestKeyFrame()
      modifies this
      ensures Value() == old(Value()).(keyRequested := true)
    {
      keyRequested := true;
    }

    method UpdateBitrate(bps: u32)
      modifies this
      ensures Value() == old(Value()).(bitrate := bps, baseQP := BaseQP(bps))
    {
      bitrate := bps;
      if bps < 500_000 {
        baseQP := 40;
      } else if bps < 2_000_000 {
        baseQP := 26 + (2_000_000 - bps) / 100_000;
      } else if bps < 8_000_000 {
        baseQP := 15 + (8_000_000 - bps) / 550_000;
      } else {
        baseQP := 15;
      }
    }

    /** The mode map of a frame: all LOSSLESS for a keyframe. */
    method ModesFor(frame: seq<Pixel>, hashes: seq<int>, content: seq<ContentType>, isKeyFrame: bool)
      returns (modes: seq<TileMode>, mvs: seq<(int, int)>)
      requires Valid() && |frame| == c.g.Area() && |content| == c.g.NumTiles()
      requires hashes == TileHashes(c, frame) && isKeyFrame == IsKey(Value())
      modifies detector.refRowHashes
      ensures Valid()
      ensures modes == FrameModes(c, Value(), frame, content) && mvs == FrameMotion(c, refFrame, frame, modes)
    {
      if isKeyFrame {
        modes, mvs := seq(|content|, _ => LOSSLESS), seq(|content|, _ => (0, 0));
      } else {
        if c.scroll {
          detector.UpdateReference(refFrame);
        }
        modes, mvs := DecideModes(c, frame, hashes, prevHashes, content, bitrate, detector, Value());
      }
    }

    /** A frame of the right size and format becomes a packet; any other is refused. */
    method Encode(input: Frame, content: seq<ContentType>) returns (packet: Option<EncodedPacket>)
      requires Valid() && |input.pixels| == input.width * input.height && |content| == c.g.NumTiles()
      modifies this, detector.refRowHashes, tileEncoder.rans, tileEncoder.rans.stack
      ensures Valid()
      ensures !Accepts(c, input) ==> packet == None && Value() == old(Value())
      ensures Accepts(c, input) ==> Value() == Encoded(c, old(Value()), input.pixels)
      ensures Accepts(c, input) ==> packet == Some(PacketOf(c, old(Value()), input.pixels, content))
    {
      if input.width != c.g.width || input.height != c.g.height {
        return None;
      }
      if input.format != BGRA && input.format != RGBA {
        return None;
      }
      packet := EncodeFrame(input.pixels, content);
    }

    method EncodeFrame(frame: seq<Pixel>, content: seq<ContentType>) returns (packet: Option<EncodedPacket>)
      requires Valid() && |frame| == c.g.Area() && |content| == c.g.NumTiles()
      modifies this, detector.refRowHashes, tileEncoder.rans, tileEncoder.rans.stack
      ensures Valid() && Value() == Encoded(c, old(Value()), frame)
      ensures packet == Some(PacketOf(c, old(Value()), frame, content))
    {
      var isKeyFrame := keyRequested || !hasRef;
      var hashes, data := Assemble(frame, content, isKeyFrame, ToU32(frameCounter + 1));
      Advance(frame, hashes);
      packet := Some(EncodedPacket(data, frameCounter, isKeyFrame));
    }

    /** The frame becomes the reference, its hashes the previous ones. */
    method Advance(frame: seq<Pixel>, hashes: seq<int>)
      requires Valid() && |frame| == c.g.Area() && hashes == TileHashes(c, frame)
      modifies this
      ensures Valid() && Value() == Encoded(c, old(Value()), frame)
    {
      HashesFollow(c, Value(), frame);
      keyRequested := false;
      frameCounter := ToU32(frameCounter + 1);
      refFrame, hasRef, prevHashes := frame, true, hashes;
    }

    /** The packet itself; the encoder's own state changes only afterwards. */
    method Assemble(frame: seq<Pixel>, content: seq<ContentType>, isKeyFrame: bool, frameId: u32)
      returns (hashes: seq<int>, data: seq<u8>)
      requires Valid() && |frame| == c.g.Area() && |content| == c.g.NumTiles()
      requires isKeyFrame == IsKey(Value()) && frameId == Counted(frameCounter)
      modifies detector.refRowHashes, tileEncoder.rans, tileEncoder.rans.stack
      ensures Valid() && hashes == TileHashes(c, frame) && data == PacketFor(c, Value(), frame, content)
    {
      hashes := ComputeTileHashes(c, frame);
      var modes, mvs := ModesFor(frame, hashes, content, isKeyFrame);
      ghost var e := Value();
      SendingIsValid(c, e, frame, content);
      ghost var s := SendingOf(c, e, frame, content);
      var streams := EncodeJobs(c, frame, modes, baseQP, tileEncoder, s);
      data := WritePacket(c.g, frameId, isKeyFrame, Codes(modes), mvs, streams);
      PacketParts(c, e, frame, content, s, data);
    }
  }

  ghost function PacketOf(c: Config, e: EncoderState, frame: seq<Pixel>, content: seq<ContentType>): EncodedPacket
    requires e.Valid(c) && |frame| == c.g.Area() && |content| == c.g.NumTiles()
  {
    EncodedPacket(PacketFor(c, e, frame, content), Counted(e.counter), IsKey(e))
  }

  lemma PacketParts(c: Config, e: EncoderState, frame: seq<Pixel>, content: seq<ContentType>, s: Sending, data: seq<u8>)
    requires e.Valid(c) && |frame| == c.g.Area() && |content| == c.g.NumTiles()
    requires s == SendingOf(c, e, frame, content) && s.Valid()
    requires data == PacketBytes(HeaderFor(c.g, Counted(e.counter), IsKey(e)), Codes(s.modes), s.mvs, SectionsOf(s))
    ensures data == PacketFor(c, e, frame, content)
  {
  }
}