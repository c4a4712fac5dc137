/** Encoder and decoder over whole runs, with a channel that may lose packets:
    src/codec/omni/omni_encoder.cpp:16-55, :76-109, :111-391. */
module OmniRuns {
  import opened Words
  import opened Arithmetic
  import opened Frames
  import opened Color
  import opened Blocks
  import opened Tiles
  import opened FrameHeader
  import opened OmniFormat
  import opened OmniFrames
  import opened ScrollDetection

  // ---- The encoder ----

  datatype ContentType = UNKNOWN | TEXT | MOTION | STATIC

  datatype PixelFormat = BGRA | RGBA | OTHER

  datatype Frame = Frame(width: nat, height: nat, format: PixelFormat, pixels: seq<Pixel>)

  /** What init() fixes. */
  datatype Config = Config(g: Grid, scroll: bool, maxError: int, hash: Hash, transform: CosTables)
  {
    function Step(): nat { ToU8(Max(1, maxError)) }

    ghost predicate Valid() { ValidGrid(g) && maxError <= 255 }
  }

  datatype EncoderState = EncoderState(ref: seq<Pixel>, hasRef: bool, hashes: seq<int>, keyRequested: bool,
                                       counter: u32, bitrate: u32, baseQP: nat)
  {
    ghost predicate Valid(c: Config)
    {
      && c.Valid() && |ref| == c.g.Area() && |hashes| == c.g.NumTiles() && 15 <= baseQP <= 41
    }
  }

  function InitialEncoder(c: Config, bitrate: u32): EncoderState
    requires c.g.tileSize > 0
  {
    EncoderState(Resized([], c.g.Area()), false, seq(c.g.NumTiles(), _ => 0), true, 0, bitrate, 26)
  }

  function DecideTileMode(content: ContentType, isScrolled: bool, bitrate: u32): TileMode
  {
    if isScrolled then COPY
    else match content
      case TEXT => LOSSLESS
      case STATIC => NEAR_LOSSLESS
      case MOTION => LOSSY
      case UNKNOWN => if bitrate > 2_000_000 then LOSSLESS else NEAR_LOSSLESS
  }

  /** updateBitrate; the quotients of the source are of doubles, truncated. */
  function BaseQP(bps: u32): (qp: nat)
    ensures 15 <= qp <= 41
  {
    if bps < 500_000 then 40
    else if bps < 2_000_000 then 26 + (2_000_000 - bps) / 100_000
    else if bps < 8_000_000 then 15 + (8_000_000 - bps) / 550_000
    else 15
  }

  /** "Higher bitrate, lower QP" holds for two rates except between a rate below 500 kbit/s and
      exactly 500 kbit/s, where the parameter goes from 40 up to 41. */
  lemma BitrateOrder(slow: u32, fast: u32)
    requires slow <= fast
    ensures BaseQP(fast) <= BaseQP(slow) <==> !(slow < 500_000 && fast == 500_000)
  {
  }

  ghost function TileHashes(c: Config, frame: seq<Pixel>): (hs: seq<int>)
    requires c.Valid() && |frame| == c.g.Area()
    ensures |hs| == c.g.NumTiles()
  {
    seq(c.g.NumTiles(), t requires 0 <= t < c.g.NumTiles() => (c.hash)(TileOf(frame, c.g, t)))
  }

  /** Scroll of tile t against the reference. */
  ghost function TileScroll(c: Config, ref: seq<Pixel>, frame: seq<Pixel>, t: nat): ScrollResult
    requires c.Valid() && |ref| == c.g.Area() && |frame| == c.g.Area() && t < c.g.NumTiles()
  {
    var b := TileBox(c.g, t);
    Scroll(TileRowHashes(c.hash, frame, c.g, b.y, b.h), RowHashes(c.hash, ref, c.g), b.y)
  }

  ghost predicate IsKey(e: EncoderState) { e.keyRequested || !e.hasRef }

  ghost function ModeOfTile(c: Config, e: EncoderState, frame: seq<Pixel>, content: ContentType, t: nat): TileMode
    requires e.Valid(c) && |frame| == c.g.Area() && t < c.g.NumTiles()
  {
    if IsKey(e) then LOSSLESS
    else if (c.hash)(TileOf(frame, c.g, t)) == e.hashes[t] then SKIP
    else DecideTileMode(content, c.scroll && TileScroll(c, e.ref, frame, t).detected, e.bitrate)
  }

  ghost function FrameModes(c: Config, e: EncoderState, frame: seq<Pixel>, content: seq<ContentType>)
    : (ms: seq<TileMode>)
    requires e.Valid(c) && |frame| == c.g.Area() && |content| == c.g.NumTiles()
    ensures |ms| == c.g.NumTiles()
  {
    seq(|content|, t requires 0 <= t < |content| => ModeOfTile(c, e, frame, content[t], t))
  }

  ghost function MotionOfTile(c: Config, ref: seq<Pixel>, frame: seq<Pixel>, m: TileMode, t: nat): (int, int)
    requires c.Valid() && |ref| == c.g.Area() && |frame| == c.g.Area() && t < c.g.NumTiles()
  {
    if m == COPY then (TileScroll(c, ref, frame, t).mvX, TileScroll(c, ref, frame, t).mvY) else (0, 0)
  }

  ghost function FrameMotion(c: Config, ref: seq<Pixel>, frame: seq<Pixel>, modes: seq<TileMode>)
    : (mvs: seq<(int, int)>)
    requires c.Valid() && |ref| == c.g.Area() && |frame| == c.g.Area() && |modes| == c.g.NumTiles()
    ensures |mvs| == |modes|
  {
    seq(|modes|, t requires 0 <= t < |modes| => MotionOfTile(c, ref, frame, modes[t], t))
  }

  ghost function SendingOf(c: Config, e: EncoderState, frame: seq<Pixel>, content: seq<ContentType>): Sending
    requires e.Valid(c) && |frame| == c.g.Area() && |content| == c.g.NumTiles()
  {
    var modes := FrameModes(c, e, frame, content);
    Sending(c.g, frame, modes, FrameMotion(c, e.ref, frame, modes), Quality(c.Step(), e.baseQP, c.transform))
  }

  ghost predicate Accepts(c: Config, input: Frame)
  {
    input.width == c.g.width && input.height == c.g.height && input.format != OTHER && |input.pixels| == c.g.Area()
  }

  function Counted(n: u32): u32 { ToU32(n + 1) }

  /** The encoder after a frame it accepts. */
  ghost function Encoded(c: Config, e: EncoderState, frame: seq<Pixel>): EncoderState
    requires e.Valid(c) && |frame| == c.g.Area()
  {
    e.(ref := frame, hasRef := true, hashes := TileHashes(c, frame), keyRequested := false,
      counter := Counted(e.counter))
  }

  ghost function PacketFor(c: Config, e: EncoderState, frame: seq<Pixel>, content: seq<ContentType>): seq<u8>
    requires e.Valid(c) && |frame| == c.g.Area() && |content| == c.g.NumTiles()
  {
    SendingIsValid(c, e, frame, content);
    Packet(SendingOf(c, e, frame, content), Counted(e.counter), IsKey(e))
  }

  lemma MotionFits(c: Config, ref: seq<Pixel>, frame: seq<Pixel>, m: TileMode, t: nat)
    requires c.Valid() && |ref| == c.g.Area() && |frame| == c.g.Area() && t < c.g.NumTiles()
    ensures var v := MotionOfTile(c, ref, frame, m, t);
      if TileCode(m) == 1 then -0x80 <= v.0 < 0x80 && -0x8000 <= v.1 < 0x8000 else v == (0, 0)
  {
  }

  lemma SendingIsValid(c: Config, e: EncoderState, frame: seq<Pixel>, content: seq<ContentType>)
    requires e.Valid(c) && |frame| == c.g.Area() && |content| == c.g.NumTiles()
    ensures SendingOf(c, e, frame, content).Valid()
  {
    var s := SendingOf(c, e, frame, content);
    forall t | 0 <= t < |s.modes|
      ensures if Codes(s.modes)[t] == 1 then -0x80 <= s.mvs[t].0 < 0x80 && -0x8000 <= s.mvs[t].1 < 0x8000
              else s.mvs[t] == (0, 0)
    {
      MotionFits(c, e.ref, frame, s.modes[t], t);
    }
  }

  // ---- Runs ----

  /** delivered says whether the packet of this frame reaches the decoder. */
  datatype Event =
    | Show(input: Frame, content: seq<ContentType>, delivered: bool)
    | RequestKeyFrame
    | UpdateBitrate(bps: u32)

  ghost predicate Possible(c: Config, ev: Event)
    requires c.g.tileSize > 0
  {
    ev.Show? ==> |ev.input.pixels| == ev.input.width * ev.input.height && |ev.content| == c.g.NumTiles()
  }

  /** How a tile was last sent with pixels. */
  datatype Coding = Coding(mode: TileMode, qp: nat)

  /** Both ends; last[t] says how tile t was sent when it last changed, if that packet carried
      pixels for it and arrived. */
  datatype Link = Link(enc: EncoderState, dec: DecoderState, last: seq<Option<Coding>>)
  {
    ghost predicate Valid(c: Config)
    {
      enc.Valid(c) && dec.Valid() && Holds(dec, c.g) && |last| == c.g.NumTiles()
    }
  }

  function LastAfter(last: seq<Option<Coding>>, modes: seq<TileMode>, qp: nat, delivered: bool)
    : (r: seq<Option<Coding>>)
    requires |last| == |modes|
    ensures |r| == |modes|
  {
    seq(|modes|, t requires 0 <= t < |modes| =>
      if modes[t] == SKIP then last[t]
      else if delivered && IsCoded(TileCode(modes[t])) then Some(Coding(modes[t], qp)) else None)
  }

  ghost function Received(c: Config, d: DecoderState, packet: seq<u8>, delivered: bool): DecoderState
    requires d.Valid()
  {
    if delivered then DecodePacket(d, packet, c.transform).next else d
  }

  ghost function AfterFrame(c: Config, l: Link, frame: seq<Pixel>, content: seq<ContentType>, delivered: bool): Link
    requires l.Valid(c) && |frame| == c.g.Area() && |content| == c.g.NumTiles()
  {
    Link(Encoded(c, l.enc, frame), Received(c, l.dec, PacketFor(c, l.enc, frame, content), delivered),
         LastAfter(l.last, FrameModes(c, l.enc, frame, content), l.enc.baseQP, delivered))
  }

  ghost function Step(c: Config, l: Link, ev: Event): Link
    requires l.Valid(c) && Possible(c, ev)
  {
    match ev
    case Show(input, content, delivered) =>
      if Accepts(c, input) then AfterFrame(c, l, input.pixels, content, delivered) else l
    case RequestKeyFrame => l.(enc := l.enc.(keyRequested := true))
    case UpdateBitrate(bps) => l.(enc := l.enc.(bitrate := bps, baseQP := BaseQP(bps)))
  }

  // ---- What holds at every point of a run ----

  ghost predicate ReconstructedAs(c: Config, t: nat, src: seq<Pixel>, shown: seq<Pixel>, k: Coding)
    requires c.Valid() && t < c.g.NumTiles() && |src| == TileArea(c.g, t)
  {
    && IsCoded(TileCode(k.mode)) && 15 <= k.qp <= 41
    && shown == Reconstruction(k.mode, Quality(c.Step(), k.qp, c.transform), TileBox(c.g, t).w, TileBox(c.g, t).h, src)
  }

  /** The decoder has a reference of the frame's size. */
  ghost predicate Synced(c: Config, d: DecoderState)
  {
    d.hasRef && d.width == c.g.width && d.height == c.g.height && |d.ref| == c.g.Area()
  }

  /** The decoder's tile is what that coding makes of the encoder's tile, in one step. */
  ghost predicate Intact(c: Config, ref: seq<Pixel>, d: DecoderState, t: nat, k: Coding)
    requires c.Valid() && |ref| == c.g.Area() && t < c.g.NumTiles()
  {
    Synced(c, d) && ReconstructedAs(c, t, TileOf(ref, c.g, t), TileOf(d.ref, c.g, t), k)
  }

  ghost predicate Linked(c: Config, l: Link)
  {
    && l.Valid(c)
    && (l.enc.hasRef ==> l.enc.hashes == TileHashes(c, l.enc.ref))
    && forall t :: 0 <= t < |l.last| && l.last[t].Some? ==>
        l.enc.hasRef && Intact(c, l.enc.ref, l.dec, t, l.last[t].value)
  }

  /** Tiles of the frame and of the reference that hash alike are alike. */
  ghost predicate NoCollision(c: Config, ref: seq<Pixel>, frame: seq<Pixel>)
    requires c.Valid() && |ref| == c.g.Area() && |frame| == c.g.Area()
  {
    forall t :: 0 <= t < c.g.NumTiles() ==>
      ((c.hash)(TileOf(frame, c.g, t)) == (c.hash)(TileOf(ref, c.g, t)) ==>
        TileOf(frame, c.g, t) == TileOf(ref, c.g, t))
  }

  ghost predicate Harmless(c: Config, l: Link, ev: Event)
    requires l.Valid(c)
  {
    ev.Show? && Accepts(c, ev.input) && l.enc.hasRef ==> NoCollision(c, l.enc.ref, ev.input.pixels)
  }

  /** A skipped tile has not changed. */
  lemma SkippedIsUnchanged(c: Config, l: Link, frame: seq<Pixel>, content: seq<ContentType>, t: nat)
    requires Linked(c, l) && |frame| == c.g.Area() && |content| == c.g.NumTiles() && t < c.g.NumTiles()
    requires l.enc.hasRef ==> NoCollision(c, l.enc.ref, frame)
    requires FrameModes(c, l.enc, frame, content)[t] == SKIP
    ensures l.enc.hasRef && TileOf(frame, c.g, t) == TileOf(l.enc.ref, c.g, t)
  {
    assert TileHashes(c, l.enc.ref)[t] == (c.hash)(TileOf(l.enc.ref, c.g, t));
  }

  lemma ShapeStays(d: DecoderState, g: Grid, frame: seq<Pixel>)
    requires d.Valid() && Holds(d, g) && |frame| == g.Area()
    ensures var d2 := Reshaped(d, g).(hasRef := true, ref := frame);
      d2.Valid() && Holds(d2, g) && d2.width == g.width && d2.height == g.height
  {
  }

  lemma TileOfShown(d: DecoderState, s: Sending, t: nat)
    requires s.Valid() && |d.ref| == s.g.Area() && t < |s.modes|
    ensures TileOf(ShownFrame(d, s), s.g, t) == Shown(d, s, t)
  {
    TilePainted(Resized([], s.g.Area()), s.g, ShownTiles(d, s, |s.modes|), |s.modes|, t);
  }

  /** What a delivered packet leaves in the decoder. */
  lemma DeliveredDecodes(c: Config, l: Link, frame: seq<Pixel>, content: seq<ContentType>)
    requires l.Valid(c) && |frame| == c.g.Area() && |content| == c.g.NumTiles()
    ensures var s, d1 := SendingOf(c, l.enc, frame, content), Reshaped(l.dec, c.g);
      && s.Valid() && |d1.ref| == c.g.Area()
      && DecodePacket(l.dec, PacketFor(c, l.enc, frame, content), c.transform)
         == Decoding(Done(ShownFrame(d1, s)), d1.(hasRef := true, ref := ShownFrame(d1, s)))
  {
    SendingIsValid(c, l.enc, frame, content);
    PacketDecodes(l.dec, SendingOf(c, l.enc, frame, content), Counted(l.enc.counter), IsKey(l.enc));
  }

  lemma ShownCoded(d: DecoderState, s: Sending, t: nat)
    requires s.Valid() && |d.ref| == s.g.Area() && t < |s.modes| && IsCoded(TileCode(s.modes[t]))
    ensures Shown(d, s, t)
         == Reconstruction(s.modes[t], s.q, TileBox(s.g, t).w, TileBox(s.g, t).h, TileOf(s.frame, s.g, t))
  {
  }

  lemma ShownSkipped(d: DecoderState, s: Sending, t: nat)
    requires s.Valid() && |d.ref| == s.g.Area() && t < |s.modes| && s.modes[t] == SKIP && d.hasRef
    ensures Shown(d, s, t) == TileOf(d.ref, s.g, t)
  {
  }

  lemma CodedTileArrives(c: Config, l: Link, frame: seq<Pixel>, content: seq<ContentType>, s: Sending, t: nat)
    requires l.Valid(c) && |frame| == c.g.Area() && |content| == c.g.NumTiles() && t < c.g.NumTiles()
    requires s == SendingOf(c, l.enc, frame, content) && s.Valid() && IsCoded(TileCode(s.modes[t]))
    ensures var d1 := Reshaped(l.dec, c.g);
      && |d1.ref| == c.g.Area()
      && Intact(c, frame, d1.(hasRef := true, ref := ShownFrame(d1, s)), t, Coding(s.modes[t], l.enc.baseQP))
  {
    var d1 := Reshaped(l.dec, c.g);
    TileOfShown(d1, s, t);
    ShownCoded(d1, s, t);
  }

  lemma SkippedTileStays(c: Config, l: Link, frame: seq<Pixel>, content: seq<ContentType>, s: Sending, t: nat)
    requires Linked(c, l) && |frame| == c.g.Area() && |content| == c.g.NumTiles() && t < c.g.NumTiles()
    requires l.enc.hasRef ==> NoCollision(c, l.enc.ref, frame)
    requires s == SendingOf(c, l.enc, frame, content) && s.Valid() && s.modes[t] == SKIP && l.last[t].Some?
    ensures Intact(c, frame, l.dec, t, l.last[t].value)
    ensures var d1 := Reshaped(l.dec, c.g);
      && d1 == l.dec && |d1.ref| == c.g.Area()
      && Intact(c, frame, d1.(hasRef := true, ref := ShownFrame(d1, s)), t, l.last[t].value)
  {
    SkippedIsUnchanged(c, l, frame, content, t);
    TileOfShown(l.dec, s, t);
    ShownSkipped(l.dec, s, t);
  }

  lemma HashesFollow(c: Config, e: EncoderState, frame: seq<Pixel>)
    requires e.Valid(c) && |frame| == c.g.Area()
    ensures var e1 := Encoded(c, e, frame);
      e1.Valid(c) && e1.hasRef && e1.ref == frame && e1.hashes == TileHashes(c, frame)
  {
  }

  lemma TileAfterFrame(c: Config, l: Link, frame: seq<Pixel>, content: seq<ContentType>, delivered: bool, l1: Link,
                       t: nat)
    requires Linked(c, l) && |frame| == c.g.Area() && |content| == c.g.NumTiles() && t < c.g.NumTiles()
    requires l.enc.hasRef ==> NoCollision(c, l.enc.ref, frame)
    requires l1 == AfterFrame(c, l, frame, content, delivered) && l1.last[t].Some?
    ensures Intact(c, frame, l1.dec, t, l1.last[t].value)
  {
    var s := SendingOf(c, l.enc, frame, content);
    DeliveredDecodes(c, l, frame, content);
    if s.modes[t] == SKIP {
      SkippedTileStays(c, l, frame, content, s, t);
    } else {
      CodedTileArrives(c, l, frame, content, s, t);
    }
  }

  lemma ShapeAfterFrame(c: Config, l: Link, frame: seq<Pixel>, content: seq<ContentType>, delivered: bool, l1: Link)
    requires l.Valid(c) && |frame| == c.g.Area() && |content| == c.g.NumTiles()
    requires l1 == AfterFrame(c, l, frame, content, delivered)
    ensures l1.Valid(c) && l1.enc == Encoded(c, l.enc, frame)
  {
    HashesFollow(c, l.enc, frame);
    if delivered {
      DeliveredDecodes(c, l, frame, content);
      ShapeStays(l.dec, c.g, ShownFrame(Reshaped(l.dec, c.g), SendingOf(c, l.enc, frame, content)));
    }
  }

  lemma FrameKeepsLink(c: Config, l: Link, frame: seq<Pixel>, content: seq<ContentType>, delivered: bool, l1: Link)
    requires Linked(c, l) && |frame| == c.g.Area() && |content| == c.g.NumTiles()
    requires l.enc.hasRef ==> NoCollision(c, l.enc.ref, frame)
    requires l1 == AfterFrame(c, l, frame, content, delivered)
    ensures Linked(c, l1)
  {
    ShapeAfterFrame(c, l, frame, content, delivered, l1);
    HashesFollow(c, l.enc, frame);
    forall t | 0 <= t < |l1.last| && l1.last[t].Some?
      ensures Intact(c, l1.enc.ref, l1.dec, t, l1.last[t].value)
    {
      TileAfterFrame(c, l, frame, content, delivered, l1, t);
    }
  }

  lemma StepKeepsLink(c: Config, l: Link, ev: Event)
    requires Linked(c, l) && Possible(c, ev) && Harmless(c, l, ev)
    ensures Linked(c, Step(c, l, ev))
  {
    if ev.Show? && Accepts(c, ev.input) {
      FrameKeepsLink(c, l, ev.input.pixels, ev.content, ev.delivered, Step(c, l, ev));
    }
  }

  // ---- Whole runs ----

  /** The links a run goes through, from `start` on. */
  ghost predicate IsRun(c: Config, start: Link, events: seq<Event>, links: seq<Link>)
  {
    && |links| == |events| + 1 && links[0] == start && start.Valid(c)
    && forall i :: 0 <= i < |events| ==> StepAt(c, events, links, i)
  }

  ghost predicate StepAt(c: Config, events: seq<Event>, links: seq<Link>, i: nat)
    requires |links| == |events| + 1 && i < |events|
  {
    links[i].Valid(c) && Possible(c, events[i]) && links[i + 1] == Step(c, links[i], events[i])
  }

  /** The events from `start` up to `end` meet no tile collision. */
  ghost predicate CollisionFree(c: Config, events: seq<Event>, links: seq<Link>, start: nat, end: nat)
    requires |links| == |events| + 1 && end <= |events|
  {
    forall i :: start <= i < end ==> HarmlessAt(c, events, links, i)
  }

  ghost predicate HarmlessAt(c: Config, events: seq<Event>, links: seq<Link>, i: nat)
    requires |links| == |events| + 1 && i < |events|
  {
    links[i].Valid(c) && Harmless(c, links[i], events[i])
  }

  /** A new encoder, and any decoder whose buffers hold the tiles: nothing is intact yet. */
  ghost function StartLink(c: Config, bitrate: u32, d: DecoderState): Link
    requires c.Valid()
  {
    Link(InitialEncoder(c, bitrate), d, seq(c.g.NumTiles(), _ => None))
  }

  lemma StartIsLinked(c: Config, bitrate: u32, d: DecoderState)
    requires c.Valid() && d.Valid() && Holds(d, c.g)
    ensures Linked(c, StartLink(c, bitrate, d))
  {
  }

  /** decoder.init(width, height): square buffers of the default tile side, no reference. */
  function InitialDecoder(width: nat, height: nat): DecoderState
  {
    DecoderState(width, height, 64, false, Resized([], width * height))
  }

  lemma InitialDecoderHolds(c: Config, width: nat, height: nat)
    requires c.Valid()
    ensures InitialDecoder(width, height).Valid() && Holds(InitialDecoder(width, height), c.g)
  {
    var a, b, d := Min(c.g.tileSize, c.g.width), Min(c.g.tileSize, c.g.height), c.g.tileSize;
    MulMonotone(a, d, b);
    MulMonotone(b, d, d);
    MulMonotone(d, 64, d);
  }

  lemma EventKeepsLink(c: Config, start: Link, events: seq<Event>, links: seq<Link>, i: nat, next: nat)
    requires IsRun(c, start, events, links) && i < |events| && next == i + 1
    requires Linked(c, links[i]) && HarmlessAt(c, events, links, i)
    ensures Linked(c, links[next])
  {
    assert StepAt(c, events, links, i);
    StepKeepsLink(c, links[i], events[i]);
  }

  /** Main result, over any channel: from any point j on where this holds, every tile whose last
      change carried pixels and arrived is one reconstruction of the encoder's tile, however many
      frames ago that was and whatever happened to the other tiles. */
  lemma {:induction false} RunKeepsLink(c: Config, start: Link, events: seq<Event>, links: seq<Link>, j: nat, i: nat)
    requires IsRun(c, start, events, links) && j <= i <= |events|
    requires Linked(c, links[j]) && CollisionFree(c, events, links, j, i)
    ensures Linked(c, links[i])
  {
    if i > j {
      RunKeepsLink(c, start, events, links, j, i - 1);
      EventKeepsLink(c, start, events, links, i - 1, i);
    }
  }

  /** So it holds at every point of a run of a new encoder, with any decoder that has room. */
  lemma NewEncoderStaysLinked(c: Config, bitrate: u32, d: DecoderState, events: seq<Event>, links: seq<Link>, i: nat)
    requires c.Valid() && d.Valid() && Holds(d, c.g) && i <= |events|
    requires IsRun(c, StartLink(c, bitrate, d), events, links) && CollisionFree(c, events, links, 0, i)
    ensures Linked(c, links[i])
  {
    StartIsLinked(c, bitrate, d);
    RunKeepsLink(c, StartLink(c, bitrate, d), events, links, 0, i);
  }

  /** A keyframe that reaches the decoder. */
  ghost predicate KeyArrives(c: Config, l: Link, ev: Event)
  {
    ev.Show? && Accepts(c, ev.input) && ev.delivered && IsKey(l.enc)
  }

  ghost predicate AllIntact(l: Link) { forall t :: 0 <= t < |l.last| ==> l.last[t].Some? }

  /** No tile of the frame is sent as COPY. */
  ghost predicate Copyless(c: Config, l: Link, ev: Event)
    requires l.Valid(c) && Possible(c, ev)
  {
    ev.Show? && Accepts(c, ev.input) ==>
      forall t :: 0 <= t < c.g.NumTiles() ==> FrameModes(c, l.enc, ev.input.pixels, ev.content)[t] != COPY
  }

  lemma NothingStale(c: Config, l: Link, frame: seq<Pixel>, content: seq<ContentType>, t: nat)
    requires l.Valid(c) && |frame| == c.g.Area() && |content| == c.g.NumTiles() && t < c.g.NumTiles()
    requires FrameModes(c, l.enc, frame, content)[t] != COPY && (l.enc.hasRef ==> AllIntact(l))
    ensures LastAfter(l.last, FrameModes(c, l.enc, frame, content), l.enc.baseQP, true)[t].Some?
  {
  }

  lemma DeliveredStep(c: Config, l: Link, ev: Event)
    requires l.Valid(c) && Possible(c, ev) && Copyless(c, l, ev) && (ev.Show? ==> ev.delivered)
    requires l.enc.hasRef ==> AllIntact(l)
    ensures Step(c, l, ev).enc.hasRef ==> AllIntact(Step(c, l, ev))
  {
    if ev.Show? && Accepts(c, ev.input) {
      forall t | 0 <= t < c.g.NumTiles()
        ensures Step(c, l, ev).last[t].Some?
      {
        NothingStale(c, l, ev.input.pixels, ev.content, t);
      }
    }
  }

  /** From `start` up to `end` every packet arrives and none has a COPY tile. */
  ghost predicate Clean(c: Config, events: seq<Event>, links: seq<Link>, start: nat, end: nat)
    requires |links| == |events| + 1 && end <= |events|
  {
    forall k :: start <= k < end ==> CleanAt(c, events, links, k)
  }

  ghost predicate CleanAt(c: Config, events: seq<Event>, links: seq<Link>, k: nat)
    requires |links| == |events| + 1 && k < |events|
  {
    && links[k].Valid(c) && Possible(c, events[k]) && Copyless(c, links[k], events[k])
    && (events[k].Show? ==> events[k].delivered)
  }

  lemma CleanEvent(c: Config, start: Link, events: seq<Event>, links: seq<Link>, i: nat, next: nat)
    requires IsRun(c, start, events, links) && i < |events| && next == i + 1
    requires CleanAt(c, events, links, i) && (links[i].enc.hasRef ==> AllIntact(links[i]))
    ensures links[next].enc.hasRef ==> AllIntact(links[next])
  {
    assert StepAt(c, events, links, i);
    DeliveredStep(c, links[i], events[i]);
  }

  lemma {:induction false} CleanRun(c: Config, start: Link, events: seq<Event>, links: seq<Link>, j: nat, i: nat)
    requires IsRun(c, start, events, links) && j <= i <= |events| && Clean(c, events, links, j, i)
    requires links[j].enc.hasRef ==> AllIntact(links[j])
    ensures links[i].enc.hasRef ==> AllIntact(links[i])
  {
    if i > j {
      CleanRun(c, start, events, links, j, i - 1);
      CleanEvent(c, start, events, links, i - 1, i);
    }
  }

  lemma ReferenceEvent(c: Config, start: Link, events: seq<Event>, links: seq<Link>, i: nat, next: nat)
    requires IsRun(c, start, events, links) && i < |events| && next == i + 1
    ensures links[i].enc.hasRef ==> links[next].enc.hasRef
    ensures !links[i].enc.hasRef && links[next].enc.hasRef ==> events[i].Show? && Accepts(c, events[i].input)
  {
    assert StepAt(c, events, links, i);
  }

  /** Once there is a reference there always is one. */
  lemma {:induction false} ReferenceStays(c: Config, start: Link, events: seq<Event>, links: seq<Link>, j: nat, i: nat)
    requires IsRun(c, start, events, links) && j <= i <= |events| && links[j].enc.hasRef
    ensures links[i].enc.hasRef
  {
    if i > j {
      ReferenceStays(c, start, events, links, j, i - 1);
      ReferenceEvent(c, start, events, links, i - 1, i);
    }
  }

  /** Whatever was lost before, a keyframe that arrives leaves every tile intact. */
  lemma KeyframeLinks(c: Config, l: Link, frame: seq<Pixel>, content: seq<ContentType>)
    requires l.Valid(c) && IsKey(l.enc) && |frame| == c.g.Area() && |content| == c.g.NumTiles()
    ensures var l1 := AfterFrame(c, l, frame, content, true);
      Linked(c, l1) && AllIntact(l1) && l1.enc.hasRef && NoLossy(l1)
  {
    var l1 := AfterFrame(c, l, frame, content, true);
    ShapeAfterFrame(c, l, frame, content, true, l1);
    HashesFollow(c, l.enc, frame);
    forall t | 0 <= t < |l1.last|
      ensures l1.last[t] == Some(Coding(LOSSLESS, l.enc.baseQP))
      ensures Intact(c, frame, l1.dec, t, l1.last[t].value)
    {
      KeyTile(c, l, frame, content, l1, t);
    }
  }

  lemma KeyTile(c: Config, l: Link, frame: seq<Pixel>, content: seq<ContentType>, l1: Link, t: nat)
    requires l.Valid(c) && IsKey(l.enc) && |frame| == c.g.Area() && |content| == c.g.NumTiles() && t < c.g.NumTiles()
    requires l1 == AfterFrame(c, l, frame, content, true)
    ensures |l1.last| == c.g.NumTiles() && l1.last[t] == Some(Coding(LOSSLESS, l.enc.baseQP))
    ensures Intact(c, frame, l1.dec, t, Coding(LOSSLESS, l.enc.baseQP))
  {
    KeyMode(c, l, frame, content, t);
    DeliveredDecodes(c, l, frame, content);
    CodedTileArrives(c, l, frame, content, SendingOf(c, l.enc, frame, content), t);
  }

  lemma KeyMode(c: Config, l: Link, frame: seq<Pixel>, content: seq<ContentType>, t: nat)
    requires l.Valid(c) && IsKey(l.enc) && |frame| == c.g.Area() && |content| == c.g.NumTiles() && t < c.g.NumTiles()
    ensures FrameModes(c, l.enc, frame, content)[t] == LOSSLESS
    ensures LastAfter(l.last, FrameModes(c, l.enc, frame, content), l.enc.baseQP, true)[t]
         == Some(Coding(LOSSLESS, l.enc.baseQP))
  {
  }

  /** The first frame a new encoder accepts is a keyframe, so what holds from a keyframe on holds
      for every run of a new encoder from its first accepted frame on. */
  lemma {:induction false} FirstFrameIsKey(c: Config, start: Link, events: seq<Event>, links: seq<Link>, i: nat)
    returns (j: nat)
    requires IsRun(c, start, events, links) && !start.enc.hasRef && i <= |events| && links[i].enc.hasRef
    ensures j < i && events[j].Show? && Accepts(c, events[j].input) && IsKey(links[j].enc)
  {
    ReferenceEvent(c, start, events, links, i - 1, i);
    if links[i - 1].enc.hasRef {
      j := FirstFrameIsKey(c, start, events, links, i - 1);
    } else {
      j := i - 1;
    }
  }

  /** Where every theorem below starts. */
  lemma AfterKeyframe(c: Config, start: Link, events: seq<Event>, links: seq<Link>, j: nat, l1: Link)
    requires IsRun(c, start, events, links) && j < |events| && KeyArrives(c, links[j], events[j])
    requires l1 == links[j + 1]
    ensures Linked(c, l1) && AllIntact(l1) && l1.enc.hasRef && NoLossy(l1) && Near(c, l1, 0)
  {
    assert StepAt(c, events, links, j);
    KeyframeLinks(c, links[j], events[j].input.pixels, events[j].content);
    KeyframeNear(c, links[j], events[j].input.pixels, events[j].content);
  }

  /** No temporal drift: from a keyframe that arrives, whatever was lost before it, until the next
      lost packet or COPY tile, every tile of the decoder is one reconstruction of the encoder's. */
  lemma NoTemporalDrift(c: Config, start: Link, events: seq<Event>, links: seq<Link>, j: nat, i: nat, t: nat)
    requires IsRun(c, start, events, links) && j < i <= |events| && KeyArrives(c, links[j], events[j])
    requires CollisionFree(c, events, links, j + 1, i) && Clean(c, events, links, j + 1, i) && t < c.g.NumTiles()
    ensures links[i].Valid(c) && links[i].enc.hasRef && links[i].last[t].Some?
    ensures Intact(c, links[i].enc.ref, links[i].dec, t, links[i].last[t].value)
  {
    AfterKeyframe(c, start, events, links, j, links[j + 1]);
    RunKeepsLink(c, start, events, links, j + 1, i);
    CleanRun(c, start, events, links, j + 1, i);
    ReferenceStays(c, start, events, links, j + 1, i);
  }

  /** So a new encoder never drifts as long as nothing is lost or copied. */
  lemma NewEncoderNeverDrifts(c: Config, bitrate: u32, d: DecoderState, events: seq<Event>, links: seq<Link>, i: nat,
                              t: nat)
    requires c.Valid() && IsRun(c, StartLink(c, bitrate, d), events, links) && i <= |events| && links[i].enc.hasRef
    requires CollisionFree(c, events, links, 0, i) && Clean(c, events, links, 0, i) && t < c.g.NumTiles()
    ensures links[i].Valid(c) && links[i].last[t].Some?
    ensures Intact(c, links[i].enc.ref, links[i].dec, t, links[i].last[t].value)
  {
    var j := FirstFrameIsKey(c, StartLink(c, bitrate, d), events, links, i);
    assert CleanAt(c, events, links, j);
    NoTemporalDrift(c, StartLink(c, bitrate, d), events, links, j, i, t);
  }

  // ---- The same in pixel values ----

  /** How far B, G and R of position p of a tile may be off: not at all for LOSSLESS, and growing
      along the tile for NEAR_LOSSLESS; for LOSSY by what a block loses. */
  ghost function ErrorBound(q: Quality, w: nat, m: TileMode, p: nat, loss: nat): (e: nat)
    requires w > 0
  {
    if m == LOSSLESS then 0
    else if m == NEAR_LOSSLESS then 2 * NearBound(w, p, q.step) + 1
    else 2 * loss + 1
  }

  ghost function NearBound(w: nat, p: nat, step: nat): (e: nat)
    requires w > 0
  {
    MulMonotone(0, p % w + p / w + 1, step / 2);
    (p % w + p / w + 1) * (step / 2)
  }

  /** loss is what a block of the tile may lose, if it is LOSSY. */
  ghost predicate Bounded(q: Quality, w: nat, h: nat, m: TileMode, loss: nat)
  {
    IsCoded(TileCode(m)) && (m == LOSSY ==> BlocksLose(q.transform, BlockSize(w, h), q.qp, loss))
  }

  /** Tiles cut into 4x4 blocks lose at most 16 * max(1, qp / 4) - 1. */
  lemma FourBounded(q: Quality, w: nat, h: nat, m: TileMode)
    requires IsCoded(TileCode(m)) && ValidQuality(q) && BlockSize(w, h) == 4
    ensures Bounded(q, w, h, m, 16 * Max(1, q.qp / 4) - 1)
  {
    FourLose(q.transform, q.qp);
  }

  lemma ReconstructionError(q: Quality, w: nat, h: nat, src: seq<Pixel>, m: TileMode, p: nat, loss: nat)
    requires |src| == w * h && ValidQuality(q) && Bounded(q, w, h, m, loss) && 0 < w <= 64 && h <= 64 && p < |src|
    ensures PixelNear(Reconstruction(m, q, w, h, src)[p], src[p], ErrorBound(q, w, m, p, loss))
  {
    match m
    case LOSSLESS =>
    case NEAR_LOSSLESS => NearTileError(Alone(w, h, src), w, h, src, q.step, p, NearBound(w, p, q.step));
    case LOSSY => LossyTileError(q.transform, w, h, src, q.qp, p, loss);
  }

  lemma IntactError(c: Config, t: nat, src: seq<Pixel>, shown: seq<Pixel>, k: Coding, b: Box, p: nat, q: Quality,
                    loss: nat, e: int)
    requires c.Valid() && t < c.g.NumTiles() && |src| == TileArea(c.g, t) && ReconstructedAs(c, t, src, shown, k)
    requires b == TileBox(c.g, t) && Bounded(q, b.w, b.h, k.mode, loss) && p < |src| && b.w > 0
    requires q == Quality(c.Step(), k.qp, c.transform) && ErrorBound(q, b.w, k.mode, p, loss) <= e
    ensures |shown| == |src| && PixelNear(shown[p], src[p], e)
  {
    ReconstructedInBox(c, t, src, shown, k, b, q);
    CodingError(q, b.w, b.h, src, shown, k.mode, p, loss, e);
  }

  lemma ReconstructedInBox(c: Config, t: nat, src: seq<Pixel>, shown: seq<Pixel>, k: Coding, b: Box, q: Quality)
    requires c.Valid() && t < c.g.NumTiles() && |src| == TileArea(c.g, t) && ReconstructedAs(c, t, src, shown, k)
    requires b == TileBox(c.g, t) && q == Quality(c.Step(), k.qp, c.transform)
    ensures |src| == b.w * b.h && b.w <= 64 && b.h <= 64 && ValidQuality(q)
    ensures shown == Reconstruction(k.mode, q, b.w, b.h, src)
  {
    TileBoxInside(c.g, t);
  }

  lemma CodingError(q: Quality, w: nat, h: nat, src: seq<Pixel>, shown: seq<Pixel>, m: TileMode, p: nat, loss: nat,
                    e: int)
    requires |src| == w * h && ValidQuality(q) && Bounded(q, w, h, m, loss) && 0 < w <= 64 && h <= 64 && p < |src|
    requires shown == Reconstruction(m, q, w, h, src) && ErrorBound(q, w, m, p, loss) <= e
    ensures |shown| == |src| && PixelNear(shown[p], src[p], e)
  {
    ReconstructionError(q, w, h, src, m, p, loss);
    NearMonotone(shown[p], src[p], ErrorBound(q, w, m, p, loss), e);
  }

  /** What an intact tile of a link shows. */
  lemma TileError(c: Config, l: Link, t: nat, b: Box, p: nat, k: Coding, loss: nat, e: int)
    requires l.Valid(c) && t < c.g.NumTiles() && Intact(c, l.enc.ref, l.dec, t, k)
    requires b == TileBox(c.g, t) && p < b.w * b.h && b.w > 0
    requires Bounded(Quality(c.Step(), k.qp, c.transform), b.w, b.h, k.mode, loss)
    requires ErrorBound(Quality(c.Step(), k.qp, c.transform), b.w, k.mode, p, loss) <= e
    ensures |l.enc.ref| == |l.dec.ref| == c.g.Area()
    ensures PixelNear(TileOf(l.dec.ref, c.g, t)[p], TileOf(l.enc.ref, c.g, t)[p], e)
  {
    IntactError(c, t, TileOf(l.enc.ref, c.g, t), TileOf(l.dec.ref, c.g, t), k, b, p,
                Quality(c.Step(), k.qp, c.transform), loss, e);
  }

  /** At every point of a run over any channel: every pixel of an intact tile is within the bound
      of the mode the tile was last sent in, whatever the number of frames in between. */
  lemma RunPixelError(c: Config, start: Link, events: seq<Event>, links: seq<Link>, i: nat, t: nat, b: Box, p: nat,
                      k: Coding, loss: nat, e: int)
    requires Linked(c, start) && IsRun(c, start, events, links)
    requires i <= |events| && CollisionFree(c, events, links, 0, i)
    requires t < |links[i].last| && links[i].last[t] == Some(k)
    requires t < c.g.NumTiles() && b == TileBox(c.g, t) && p < b.w * b.h && b.w > 0
    requires Bounded(Quality(c.Step(), k.qp, c.transform), b.w, b.h, k.mode, loss)
    requires e == ErrorBound(Quality(c.Step(), k.qp, c.transform), b.w, k.mode, p, loss)
    ensures |links[i].enc.ref| == |links[i].dec.ref| == c.g.Area()
    ensures PixelNear(TileOf(links[i].dec.ref, c.g, t)[p], TileOf(links[i].enc.ref, c.g, t)[p], e)
  {
    RunKeepsLink(c, start, events, links, 0, i);
    assert Intact(c, links[i].enc.ref, links[i].dec, t, k);
    TileError(c, links[i], t, b, p, k, loss, e);
  }

  /** No tile of the frame is classified as MOTION. */
  ghost predicate Motionless(c: Config, ev: Event)
  {
    ev.Show? && Accepts(c, ev.input) ==> forall t :: 0 <= t < |ev.content| ==> ev.content[t] != MOTION
  }

  ghost predicate NoLossy(l: Link)
  {
    forall t :: 0 <= t < |l.last| && l.last[t].Some? ==> l.last[t].value.mode != LOSSY
  }

  lemma NoLossyEvent(c: Config, start: Link, events: seq<Event>, links: seq<Link>, i: nat, next: nat)
    requires IsRun(c, start, events, links) && i < |events| && next == i + 1
    requires Motionless(c, events[i]) && NoLossy(links[i])
    ensures NoLossy(links[next])
  {
    assert StepAt(c, events, links, i);
    NoLossyStep(c, links[i], events[i]);
  }

  /** LOSSY tiles come from MOTION content only. */
  lemma {:induction false} NoLossyRun(c: Config, start: Link, events: seq<Event>, links: seq<Link>, j: nat, i: nat)
    requires IsRun(c, start, events, links) && j <= i <= |events| && NoLossy(links[j])
    requires forall k :: j <= k < i ==> Motionless(c, events[k])
    ensures NoLossy(links[i])
  {
    if i > j {
      NoLossyRun(c, start, events, links, j, i - 1);
      NoLossyEvent(c, start, events, links, i - 1, i);
    }
  }

  lemma NoLossyStep(c: Config, l: Link, ev: Event)
    requires l.Valid(c) && Possible(c, ev) && Motionless(c, ev) && NoLossy(l)
    ensures NoLossy(Step(c, l, ev))
  {
    if ev.Show? && Accepts(c, ev.input) {
      forall t | 0 <= t < c.g.NumTiles() && Step(c, l, ev).last[t].Some?
        ensures Step(c, l, ev).last[t].value.mode != LOSSY
      {
        NoLossyTile(c, l, ev.input.pixels, ev.content, ev.delivered, t);
      }
    }
  }

  lemma NoLossyTile(c: Config, l: Link, frame: seq<Pixel>, content: seq<ContentType>, delivered: bool, t: nat)
    requires l.Valid(c) && NoLossy(l) && |frame| == c.g.Area() && |content| == c.g.NumTiles() && t < c.g.NumTiles()
    requires content[t] != MOTION
    ensures var k := LastAfter(l.last, FrameModes(c, l.enc, frame, content), l.enc.baseQP, delivered)[t];
      k.Some? ==> k.value.mode != LOSSY
  {
  }

  /** So from a keyframe that arrives, until the next lost packet, COPY tile or MOTION content,
      every pixel of every tile keeps within the bound of near-lossless coding. */
  lemma NoPixelDrift(c: Config, start: Link, events: seq<Event>, links: seq<Link>, j: nat, i: nat, t: nat, b: Box,
                     p: nat, e: int)
    requires IsRun(c, start, events, links) && j < i <= |events| && KeyArrives(c, links[j], events[j])
    requires CollisionFree(c, events, links, j + 1, i) && Clean(c, events, links, j + 1, i)
    requires forall k :: j < k < i ==> Motionless(c, events[k])
    requires t < c.g.NumTiles() && b == TileBox(c.g, t) && p < b.w * b.h && b.w > 0
    requires e == 2 * NearBound(b.w, p, c.Step()) + 1
    ensures |links[i].enc.ref| == |links[i].dec.ref| == c.g.Area()
    ensures PixelNear(TileOf(links[i].dec.ref, c.g, t)[p], TileOf(links[i].enc.ref, c.g, t)[p], e)
  {
    NoTemporalDrift(c, start, events, links, j, i, t);
    NoLossyAfterKey(c, start, events, links, j, i);
    SharpTile(c, links[i], t, b, p, links[i].last[t].value, e);
  }

  lemma NoLossyAfterKey(c: Config, start: Link, events: seq<Event>, links: seq<Link>, j: nat, i: nat)
    requires IsRun(c, start, events, links) && j < i <= |events| && KeyArrives(c, links[j], events[j])
    requires forall k :: j < k < i ==> Motionless(c, events[k])
    ensures NoLossy(links[i])
  {
    AfterKeyframe(c, start, events, links, j, links[j + 1]);
    NoLossyRun(c, start, events, links, j + 1, i);
  }

  /** An intact tile that is not LOSSY. */
  lemma SharpTile(c: Config, l: Link, t: nat, b: Box, p: nat, k: Coding, e: int)
    requires l.Valid(c) && t < c.g.NumTiles() && Intact(c, l.enc.ref, l.dec, t, k) && k.mode != LOSSY
    requires b == TileBox(c.g, t) && p < b.w * b.h && b.w > 0 && e == 2 * NearBound(b.w, p, c.Step()) + 1
    ensures |l.enc.ref| == |l.dec.ref| == c.g.Area()
    ensures PixelNear(TileOf(l.dec.ref, c.g, t)[p], TileOf(l.enc.ref, c.g, t)[p], e)
  {
    SharpBound(Quality(c.Step(), k.qp, c.transform), b.w, b.h, k.mode, p, e);
    TileError(c, l, t, b, p, k, 0, e);
  }

  lemma SharpBound(q: Quality, w: nat, h: nat, m: TileMode, p: nat, e: int)
    requires w > 0 && IsCoded(TileCode(m)) && m != LOSSY && e == 2 * NearBound(w, p, q.step) + 1
    ensures Bounded(q, w, h, m, 0) && ErrorBound(q, w, m, p, 0) <= e
  {
  }

  // ---- Runs with COPY tiles ----

  /** Every row of the tile was found in the reference at the offset that is sent. */
  ghost predicate FullyMatched(c: Config, ref: seq<Pixel>, frame: seq<Pixel>, t: nat)
    requires c.Valid() && |ref| == c.g.Area() && |frame| == c.g.Area() && t < c.g.NumTiles()
  {
    var b := TileBox(c.g, t);
    Matches(TileRowHashes(c.hash, frame, c.g, b.y, b.h), RowHashes(c.hash, ref, c.g), b.y,
            TileScroll(c, ref, frame, t).mvY, b.h)
      == b.h
  }

  /** What tile t costs is no more than e. */
  ghost predicate Affordable(c: Config, e: EncoderState, frame: seq<Pixel>, m: TileMode, t: nat, bound: nat)
    requires e.Valid(c) && |frame| == c.g.Area() && t < c.g.NumTiles()
  {
    match m
    case SKIP => true
    case COPY => FullyMatched(c, e.ref, frame, t)
    case LOSSLESS => true
    case NEAR_LOSSLESS => 254 * (c.Step() / 2) + 1 <= bound
    case LOSSY =>
      bound > 0
      && BlocksLose(c.transform, BlockSize(TileBox(c.g, t).w, TileBox(c.g, t).h), e.baseQP, (bound - 1) / 2)
  }

  /** A LOSSY tile cut into 4x4 blocks costs at most 32 * max(1, qp / 4) - 1. */
  lemma FourAffordable(c: Config, e: EncoderState, frame: seq<Pixel>, t: nat, bound: nat)
    requires e.Valid(c) && |frame| == c.g.Area() && t < c.g.NumTiles()
    requires BlockSize(TileBox(c.g, t).w, TileBox(c.g, t).h) == 4 && 32 * Max(1, e.baseQP / 4) - 1 <= bound
    ensures Affordable(c, e, frame, LOSSY, t, bound)
  {
    FourLose(c.transform, e.baseQP);
    LoseMore(c.transform, 4, e.baseQP, 16 * Max(1, e.baseQP / 4) - 1, (bound - 1) / 2);
  }

  /** The packet arrives, its tiles are affordable, and rows that hash alike are alike. */
  ghost predicate Gentle(c: Config, l: Link, ev: Event, bound: nat)
    requires l.Valid(c) && Possible(c, ev)
  {
    ev.Show? ==> ev.delivered && (Accepts(c, ev.input) ==> GentleFrame(c, l, ev.input.pixels, ev.content, bound))
  }

  ghost predicate GentleFrame(c: Config, l: Link, frame: seq<Pixel>, content: seq<ContentType>, bound: nat)
    requires l.Valid(c) && |frame| == c.g.Area() && |content| == c.g.NumTiles()
  {
    && (l.enc.hasRef ==> NoRowCollision(c.hash, frame, l.enc.ref, c.g))
    && forall t :: 0 <= t < c.g.NumTiles() ==>
      Affordable(c, l.enc, frame, FrameModes(c, l.enc, frame, content)[t], t, bound)
  }

  /** The decoder's picture is within `bound` of the encoder's reference. */
  ghost predicate Near(c: Config, l: Link, bound: nat)
    requires l.Valid(c)
  {
    l.enc.hasRef ==> Synced(c, l.dec) && PictureNear(l.dec.ref, l.enc.ref, bound)
  }

  lemma CutNear(a: seq<Pixel>, b: seq<Pixel>, g: Grid, t: nat, e: int)
    requires ValidGrid(g) && |a| == |b| == g.Area() && t < g.NumTiles() && PictureNear(a, b, e)
    ensures PictureNear(TileOf(a, g, t), TileOf(b, g, t), e)
  {
    TileFits(g, t);
    var x := TileBox(g, t);
    forall i | 0 <= i < x.w * x.h
      ensures PixelNear(Cut(a, g, x)[i], Cut(b, g, x)[i], e)
    {
      AtInFrame(g, x, i);
    }
  }

  lemma TilesNear(a: seq<Pixel>, b: seq<Pixel>, g: Grid, e: int)
    requires ValidGrid(g) && |a| == |b| == g.Area()
    requires forall t :: 0 <= t < g.NumTiles() ==> PictureNear(TileOf(a, g, t), TileOf(b, g, t), e)
    ensures PictureNear(a, b, e)
  {
    forall i | 0 <= i < g.Area()
      ensures PixelNear(a[i], b[i], e)
    {
      PixelNearAt(a, b, g, i, e);
    }
  }

  lemma PixelNearAt(a: seq<Pixel>, b: seq<Pixel>, g: Grid, i: nat, e: int)
    requires ValidGrid(g) && |a| == |b| == g.Area() && i < g.Area()
    requires forall t :: 0 <= t < g.NumTiles() ==> PictureNear(TileOf(a, g, t), TileOf(b, g, t), e)
    ensures PixelNear(a[i], b[i], e)
  {
    RowOf(g.width, g.height, i);
    var t := OwnerOf(g, i % g.width, i / g.width);
    assert PictureNear(TileOf(a, g, t), TileOf(b, g, t), e);
    PixelOfTile(g, a, t, i % g.width, i / g.width);
    PixelOfTile(g, b, t, i % g.width, i / g.width);
  }

  lemma NearBoundLimit(w: nat, h: nat, p: nat, step: nat)
    requires 0 < w <= 64 && h <= 64 && p < w * h
    ensures NearBound(w, p, step) <= 127 * (step / 2)
  {
    RowOf(w, h, p);
    MulMonotone(p % w + p / w + 1, 127, step / 2);
  }

  lemma NearMonotone(a: Pixel, b: Pixel, e: int, f: int)
    requires PixelNear(a, b, e) && e <= f
    ensures PixelNear(a, b, f)
  {
  }

  /** A coded tile that is affordable. */
  lemma CodedNear(q: Quality, w: nat, h: nat, src: seq<Pixel>, m: TileMode, loss: nat, bound: nat)
    requires |src| == w * h && ValidQuality(q) && Bounded(q, w, h, m, loss) && 0 < w <= 64 && h <= 64
    requires m == NEAR_LOSSLESS ==> 254 * (q.step / 2) + 1 <= bound
    requires m == LOSSY ==> 2 * loss + 1 <= bound
    ensures PictureNear(Reconstruction(m, q, w, h, src), src, bound)
  {
    forall p | 0 <= p < |src|
      ensures PixelNear(Reconstruction(m, q, w, h, src)[p], src[p], bound)
    {
      ReconstructionError(q, w, h, src, m, p, loss);
      NearBoundLimit(w, h, p, q.step);
      NearMonotone(Reconstruction(m, q, w, h, src)[p], src[p], ErrorBound(q, w, m, p, loss), bound);
    }
  }

  lemma SkipNear(c: Config, l: Link, frame: seq<Pixel>, content: seq<ContentType>, s: Sending, t: nat, bound: nat)
    requires Linked(c, l) && Near(c, l, bound) && |frame| == c.g.Area() && |content| == c.g.NumTiles()
    requires t < c.g.NumTiles() && (l.enc.hasRef ==> NoCollision(c, l.enc.ref, frame))
    requires s == SendingOf(c, l.enc, frame, content) && s.Valid() && s.modes[t] == SKIP
    ensures var d1 := Reshaped(l.dec, c.g);
      |d1.ref| == c.g.Area() && PictureNear(Shown(d1, s, t), TileOf(frame, c.g, t), bound)
  {
    SkippedIsUnchanged(c, l, frame, content, t);
    ShownSkipped(l.dec, s, t);
    CutNear(l.dec.ref, l.enc.ref, c.g, t, bound);
  }

  lemma CopyWasDetected(c: Config, e: EncoderState, frame: seq<Pixel>, content: ContentType, t: nat)
    requires e.Valid(c) && |frame| == c.g.Area() && t < c.g.NumTiles() && ModeOfTile(c, e, frame, content, t) == COPY
    ensures e.hasRef && MotionOfTile(c, e.ref, frame, COPY, t) == (0, TileScroll(c, e.ref, frame, t).mvY)
  {
  }

  lemma CopyNear(c: Config, l: Link, frame: seq<Pixel>, content: seq<ContentType>, s: Sending, t: nat, bound: nat)
    requires Linked(c, l) && Near(c, l, bound) && |frame| == c.g.Area() && |content| == c.g.NumTiles()
    requires t < c.g.NumTiles() && s == SendingOf(c, l.enc, frame, content) && s.Valid() && s.modes[t] == COPY
    requires FullyMatched(c, l.enc.ref, frame, t) && (l.enc.hasRef ==> NoRowCollision(c.hash, frame, l.enc.ref, c.g))
    ensures var d1 := Reshaped(l.dec, c.g);
      |d1.ref| == c.g.Area() && PictureNear(Shown(d1, s, t), TileOf(frame, c.g, t), bound)
  {
    CopyWasDetected(c, l.enc, frame, content[t], t);
    TileFits(c.g, t);
    FullMatchAddsNothing(c.hash, frame, l.enc.ref, l.dec.ref, c.g, TileBox(c.g, t), s.mvs[t].1, bound);
    ShownCopied(l.dec, s, t);
  }

  lemma ShownCopied(d: DecoderState, s: Sending, t: nat)
    requires s.Valid() && |d.ref| == s.g.Area() && t < |s.modes| && s.modes[t] == COPY && d.hasRef
    ensures Inside(TileBox(s.g, t), s.g)
    ensures Shown(d, s, t) == CopiedTile(d.ref, s.g, TileBox(s.g, t), s.mvs[t].0, s.mvs[t].1)
  {
    TileFits(s.g, t);
  }

  lemma TileStaysNear(c: Config, l: Link, frame: seq<Pixel>, content: seq<ContentType>, s: Sending, t: nat, bound: nat)
    requires Linked(c, l) && Near(c, l, bound) && |frame| == c.g.Area() && |content| == c.g.NumTiles()
    requires (l.enc.hasRef ==> NoCollision(c, l.enc.ref, frame)) && GentleFrame(c, l, frame, content, bound)
    requires t < c.g.NumTiles() && s == SendingOf(c, l.enc, frame, content) && s.Valid()
    ensures var d1 := Reshaped(l.dec, c.g);
      |d1.ref| == c.g.Area() && PictureNear(Shown(d1, s, t), TileOf(frame, c.g, t), bound)
  {
    assert Affordable(c, l.enc, frame, s.modes[t], t, bound);
    if s.modes[t] == SKIP {
      SkipNear(c, l, frame, content, s, t, bound);
    } else if s.modes[t] == COPY {
      CopyNear(c, l, frame, content, s, t, bound);
    } else {
      TileFits(c.g, t);
      TileBoxInside(c.g, t);
      var b := TileBox(c.g, t);
      ShownCoded(Reshaped(l.dec, c.g), s, t);
      CodedNear(s.q, b.w, b.h, TileOf(frame, c.g, t), s.modes[t], if bound > 0 then (bound - 1) / 2 else 0, bound);
    }
  }

  lemma FrameStaysNear(c: Config, l: Link, frame: seq<Pixel>, content: seq<ContentType>, bound: nat)
    requires Linked(c, l) && Near(c, l, bound) && |frame| == c.g.Area() && |content| == c.g.NumTiles()
    requires (l.enc.hasRef ==> NoCollision(c, l.enc.ref, frame)) && GentleFrame(c, l, frame, content, bound)
    ensures AfterFrame(c, l, frame, content, true).Valid(c) && Near(c, AfterFrame(c, l, frame, content, true), bound)
  {
    var l1, s, d1 := AfterFrame(c, l, frame, content, true), SendingOf(c, l.enc, frame, content), Reshaped(l.dec, c.g);
    DeliveredDecodes(c, l, frame, content);
    ShapeAfterFrame(c, l, frame, content, true, l1);
    forall t | 0 <= t < c.g.NumTiles()
      ensures PictureNear(TileOf(ShownFrame(d1, s), c.g, t), TileOf(frame, c.g, t), bound)
    {
      TileStaysNear(c, l, frame, content, s, t, bound);
      TileOfShown(d1, s, t);
    }
    TilesNear(ShownFrame(d1, s), frame, c.g, bound);
  }

  ghost predicate GentleRun(c: Config, events: seq<Event>, links: seq<Link>, start: nat, end: nat, bound: nat)
    requires |links| == |events| + 1 && end <= |events|
  {
    forall k :: start <= k < end ==> GentleAt(c, events, links, k, bound)
  }

  ghost predicate GentleAt(c: Config, events: seq<Event>, links: seq<Link>, k: nat, bound: nat)
    requires |links| == |events| + 1 && k < |events|
  {
    links[k].Valid(c) && Possible(c, events[k]) && Gentle(c, links[k], events[k], bound)
  }

  lemma NearEvent(c: Config, start: Link, events: seq<Event>, links: seq<Link>, i: nat, next: nat,
                  bound: nat)
    requires IsRun(c, start, events, links) && i < |events| && next == i + 1
    requires Linked(c, links[i]) && Near(c, links[i], bound)
    requires HarmlessAt(c, events, links, i) && GentleAt(c, events, links, i, bound)
    ensures links[next].Valid(c) && Near(c, links[next], bound)
  {
    assert StepAt(c, events, links, i);
    NearStep(c, links[i], events[i], links[next], bound);
  }

  lemma {:induction false} NearRun(c: Config, start: Link, events: seq<Event>, links: seq<Link>, j: nat, i: nat,
                                   bound: nat)
    requires IsRun(c, start, events, links) && j <= i <= |events|
    requires Linked(c, links[j]) && Near(c, links[j], bound)
    requires CollisionFree(c, events, links, j, i) && GentleRun(c, events, links, j, i, bound)
    ensures links[i].Valid(c) && Near(c, links[i], bound)
  {
    if i > j {
      NearRun(c, start, events, links, j, i - 1, bound);
      RunKeepsLink(c, start, events, links, j, i - 1);
      NearEvent(c, start, events, links, i - 1, i, bound);
    }
  }

  /** Main result with scrolling: from a keyframe that arrives, whatever was lost before it, while
      every packet arrives, every tile is affordable within `bound` and every COPY tile is fully
      matched, every pixel the decoder shows is within `bound` of the source.  Neither skipping
      nor copying adds up. */
  lemma RunStaysNear(c: Config, start: Link, events: seq<Event>, links: seq<Link>, j: nat, i: nat, bound: nat)
    requires IsRun(c, start, events, links) && j < i <= |events| && KeyArrives(c, links[j], events[j])
    requires CollisionFree(c, events, links, j + 1, i) && GentleRun(c, events, links, j + 1, i, bound)
    ensures links[i].Valid(c) && links[i].enc.hasRef && Near(c, links[i], bound)
  {
    AfterKeyframe(c, start, events, links, j, links[j + 1]);
    NearMore(c, links[j + 1], bound);
    NearRun(c, start, events, links, j + 1, i, bound);
    ReferenceStays(c, start, events, links, j + 1, i);
  }

  lemma KeyframeNear(c: Config, l: Link, frame: seq<Pixel>, content: seq<ContentType>)
    requires l.Valid(c) && IsKey(l.enc) && |frame| == c.g.Area() && |content| == c.g.NumTiles()
    ensures var l1 := AfterFrame(c, l, frame, content, true); l1.Valid(c) && Near(c, l1, 0)
  {
    var l1 := AfterFrame(c, l, frame, content, true);
    DeliveredDecodes(c, l, frame, content);
    ShapeAfterFrame(c, l, frame, content, true, l1);
    KeyframeResync(c, l, frame, content);
    OpaqueIsNear(frame);
  }

  lemma OpaqueIsNear(frame: seq<Pixel>)
    ensures PictureNear(OpaqueTile(frame), frame, 0)
  {
  }

  lemma NearMore(c: Config, l: Link, bound: nat)
    requires l.Valid(c) && Near(c, l, 0)
    ensures Near(c, l, bound)
  {
  }

  lemma NearStep(c: Config, l: Link, ev: Event, l1: Link, bound: nat)
    requires Linked(c, l) && Near(c, l, bound) && Possible(c, ev) && Harmless(c, l, ev) && Gentle(c, l, ev, bound)
    requires l1 == Step(c, l, ev)
    ensures l1.Valid(c) && Near(c, l1, bound)
  {
    if ev.Show? && Accepts(c, ev.input) {
      FrameStaysNear(c, l, ev.input.pixels, ev.content, bound);
    }
  }

  /** In particular, when every coded tile is LOSSLESS, the decoder holds the opaque source. */
  lemma LosslessRunIsExact(c: Config, start: Link, events: seq<Event>, links: seq<Link>, j: nat, i: nat)
    requires IsRun(c, start, events, links) && j < i <= |events| && KeyArrives(c, links[j], events[j])
    requires CollisionFree(c, events, links, j + 1, i) && GentleRun(c, events, links, j + 1, i, 0)
    ensures links[i].dec.ref == OpaqueTile(links[i].enc.ref)
  {
    RunStaysNear(c, start, events, links, j, i, 0);
    NearIsOpaque(links[i].dec.ref, links[i].enc.ref);
  }

  // ---- Tiles that are skipped ----

  /** The frame skips tile t. */
  ghost predicate Skips(c: Config, l: Link, ev: Event, t: nat)
    requires l.Valid(c) && Possible(c, ev) && t < c.g.NumTiles()
  {
    ev.Show? && Accepts(c, ev.input) ==> FrameModes(c, l.enc, ev.input.pixels, ev.content)[t] == SKIP
  }

  /** The decoder shows `shown` where the source is `src`. */
  ghost predicate Shows(c: Config, l: Link, t: nat, src: seq<Pixel>, shown: seq<Pixel>)
  {
    && l.Valid(c) && Synced(c, l.dec) && l.enc.hasRef && t < c.g.NumTiles()
    && TileOf(l.enc.ref, c.g, t) == src && TileOf(l.dec.ref, c.g, t) == shown
  }

  lemma SkipEvent(c: Config, start: Link, events: seq<Event>, links: seq<Link>, i: nat, next: nat, t: nat,
                  src: seq<Pixel>, shown: seq<Pixel>)
    requires IsRun(c, start, events, links) && i < |events| && next == i + 1
    requires Linked(c, links[i]) && Shows(c, links[i], t, src, shown)
    requires HarmlessAt(c, events, links, i) && SkipAt(c, events, links, i, t)
    ensures Linked(c, links[next]) && Shows(c, links[next], t, src, shown)
  {
    assert StepAt(c, events, links, i);
    SkipStep(c, links[i], events[i], links[next], t, src, shown);
    StepKeepsLink(c, links[i], events[i]);
  }

  /** For as long as a tile is skipped, what the decoder shows of it stays as it is, right or
      wrong, and so does the source: errors neither grow nor heal. */
  lemma {:induction false} SkippedTileStands(c: Config, start: Link, events: seq<Event>, links: seq<Link>, j: nat,
                                             i: nat, t: nat, src: seq<Pixel>, shown: seq<Pixel>)
    requires IsRun(c, start, events, links) && j <= i <= |events|
    requires Linked(c, links[j]) && Shows(c, links[j], t, src, shown)
    requires CollisionFree(c, events, links, j, i) && AlwaysSkips(c, events, links, j, i, t)
    ensures Linked(c, links[i]) && Shows(c, links[i], t, src, shown)
  {
    if i > j {
      SkippedTileStands(c, start, events, links, j, i - 1, t, src, shown);
      SkipEvent(c, start, events, links, i - 1, i, t, src, shown);
    }
  }

  ghost predicate AlwaysSkips(c: Config, events: seq<Event>, links: seq<Link>, start: nat, end: nat, t: nat)
    requires |links| == |events| + 1 && end <= |events|
  {
    forall k :: start <= k < end ==> SkipAt(c, events, links, k, t)
  }

  ghost predicate SkipAt(c: Config, events: seq<Event>, links: seq<Link>, k: nat, t: nat)
    requires |links| == |events| + 1 && k < |events|
  {
    links[k].Valid(c) && Possible(c, events[k]) && t < c.g.NumTiles() && Skips(c, links[k], events[k], t)
  }

  lemma SkipStep(c: Config, l: Link, ev: Event, l1: Link, t: nat, src: seq<Pixel>, shown: seq<Pixel>)
    requires Linked(c, l) && Possible(c, ev) && Harmless(c, l, ev) && l1 == Step(c, l, ev)
    requires Shows(c, l, t, src, shown) && Skips(c, l, ev, t)
    ensures Shows(c, l1, t, src, shown)
  {
    if ev.Show? && Accepts(c, ev.input) {
      SkipFrame(c, l, ev.input.pixels, ev.content, ev.delivered, l1, t, src, shown);
    }
  }

  lemma SkipFrame(c: Config, l: Link, frame: seq<Pixel>, content: seq<ContentType>, delivered: bool, l1: Link, t: nat,
                  src: seq<Pixel>, shown: seq<Pixel>)
    requires Linked(c, l) && |frame| == c.g.Area() && |content| == c.g.NumTiles() && Shows(c, l, t, src, shown)
    requires NoCollision(c, l.enc.ref, frame)
    requires FrameModes(c, l.enc, frame, content)[t] == SKIP && l1 == AfterFrame(c, l, frame, content, delivered)
    ensures Shows(c, l1, t, src, shown)
  {
    var s := SendingOf(c, l.enc, frame, content);
    ShapeAfterFrame(c, l, frame, content, delivered, l1);
    SkippedIsUnchanged(c, l, frame, content, t);
    DeliveredDecodes(c, l, frame, content);
    TileOfShown(l.dec, s, t);
    ShownSkipped(l.dec, s, t);
  }

  // ---- Keyframes ----

  lemma OpaqueCut(frame: seq<Pixel>, g: Grid, t: nat)
    requires ValidGrid(g) && |frame| == g.Area() && t < g.NumTiles()
    ensures TileOf(OpaqueTile(frame), g, t) == OpaqueTile(TileOf(frame, g, t))
  {
    TileFits(g, t);
    var b := TileBox(g, t);
    forall i | 0 <= i < b.w * b.h
      ensures Cut(OpaqueTile(frame), g, b)[i] == OpaqueTile(Cut(frame, g, b))[i]
    {
      AtInFrame(g, b, i);
    }
  }

  lemma LosslessFrameIsExact(d: DecoderState, s: Sending)
    requires s.Valid() && |d.ref| == s.g.Area() && forall t :: 0 <= t < |s.modes| ==> s.modes[t] == LOSSLESS
    ensures ShownFrame(d, s) == OpaqueTile(s.frame)
  {
    forall t | 0 <= t < s.g.NumTiles()
      ensures SameTile(s.g, ShownFrame(d, s), OpaqueTile(s.frame), t)
    {
      TileOfShown(d, s, t);
      ShownCoded(d, s, t);
      OpaqueCut(s.frame, s.g, t);
    }
    TilesDetermineFrame(s.g, ShownFrame(d, s), OpaqueTile(s.frame));
  }

  /** Keyframe resynchronisation: from any decoder state, the first frame, or one after a
      request, shows exactly the source's B, G and R, and alpha 255. */
  lemma KeyframeResync(c: Config, l: Link, frame: seq<Pixel>, content: seq<ContentType>)
    requires l.Valid(c) && IsKey(l.enc) && |frame| == c.g.Area() && |content| == c.g.NumTiles()
    ensures DecodePacket(l.dec, PacketFor(c, l.enc, frame, content), c.transform).outcome == Done(OpaqueTile(frame))
    ensures var l1 := AfterFrame(c, l, frame, content, true);
      l1.dec.hasRef && l1.dec.ref == OpaqueTile(l1.enc.ref) && AllIntact(l1)
  {
    DeliveredDecodes(c, l, frame, content);
    LosslessFrameIsExact(Reshaped(l.dec, c.g), SendingOf(c, l.enc, frame, content));
    KeyframeLinks(c, l, frame, content);
  }
}
