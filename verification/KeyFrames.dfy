/** When the encoder sends a keyframe and when it sends nothing, over whole runs:
    src/codec/omni/omni_encoder.cpp:111-265 and :347-375. */
module KeyFrames {
  import opened Words
  import opened Bitstream
  import opened Frames
  import opened FrameHeader
  import opened OmniFormat
  import opened OmniFrames
  import opened OmniRuns

  /** A frame the encoder takes: of its own size, four bytes a pixel in either order, complete. */
  ghost predicate Taken(c: Config, ev: Event)
  {
    && ev.Show? && ev.input.width == c.g.width && ev.input.height == c.g.height
    && (ev.input.format == BGRA || ev.input.format == RGBA) && |ev.input.pixels| == ev.input.width * ev.input.height
  }

  lemma TakenIsAccepted(c: Config, ev: Event)
    requires c.g.tileSize > 0 && Possible(c, ev)
    ensures Taken(c, ev) <==> ev.Show? && Accepts(c, ev.input)
  {
  }

  /** Every frame taken before event i has a keyframe request behind it. */
  ghost predicate KeyDue(c: Config, events: seq<Event>, i: nat)
    requires i <= |events|
  {
    forall j :: 0 <= j < i && Taken(c, events[j]) ==> RequestedAfter(events, j, i)
  }

  ghost predicate RequestedAfter(events: seq<Event>, from: nat, to: nat)
    requires to <= |events|
  {
    exists k :: from < k < to && events[k].RequestKeyFrame?
  }

  /** What one event does to the encoder. */
  lemma EncoderEvent(c: Config, start: Link, events: seq<Event>, links: seq<Link>, i: nat, next: nat)
    requires IsRun(c, start, events, links) && i < |events| && next == i + 1
    ensures Possible(c, events[i]) && links[i].Valid(c)
    ensures Taken(c, events[i]) ==>
      var e := links[next].enc;
      e.hasRef && !e.keyRequested && e.ref == events[i].input.pixels && e.hashes == TileHashes(c, e.ref)
    ensures Taken(c, events[i]) ==> links[next].enc.counter == (links[i].enc.counter + 1) % 0x1_0000_0000
    ensures events[i].RequestKeyFrame? ==> links[next].enc == links[i].enc.(keyRequested := true)
    ensures !Taken(c, events[i]) && !events[i].RequestKeyFrame? ==>
      var e, e1 := links[i].enc, links[next].enc;
      && e1.hasRef == e.hasRef && e1.keyRequested == e.keyRequested && e1.ref == e.ref && e1.hashes == e.hashes
      && e1.counter == e.counter
  {
    assert StepAt(c, events, links, i);
    TakenIsAccepted(c, events[i]);
  }

  lemma DueStep(c: Config, events: seq<Event>, i: nat, next: nat)
    requires i < |events| && next == i + 1
    ensures Taken(c, events[i]) ==> !KeyDue(c, events, next)
    ensures events[i].RequestKeyFrame? ==> KeyDue(c, events, next)
    ensures !Taken(c, events[i]) && !events[i].RequestKeyFrame? ==> (KeyDue(c, events, next) <==> KeyDue(c, events, i))
  {
    if Taken(c, events[i]) {
      assert !RequestedAfter(events, i, next);
    } else if events[i].RequestKeyFrame? {
      forall j | 0 <= j < next && Taken(c, events[j])
        ensures RequestedAfter(events, j, next)
      {
        assert j < i;
        assert j < i < next && events[i].RequestKeyFrame?;
      }
    } else {
      forall j | 0 <= j < i
        ensures RequestedAfter(events, j, next) <==> RequestedAfter(events, j, i)
      {
        SameRequests(events, j, i, next);
      }
    }
  }

  lemma SameRequests(events: seq<Event>, from: nat, i: nat, next: nat)
    requires i < |events| && next == i + 1 && !events[i].RequestKeyFrame?
    ensures RequestedAfter(events, from, next) <==> RequestedAfter(events, from, i)
  {
    if RequestedAfter(events, from, next) {
      var k :| from < k < next && events[k].RequestKeyFrame?;
      assert k < i;
    }
  }

  /** Main result: the frame at event i is a keyframe if and only if no frame was taken yet or a
      keyframe was requested since the last one that was. */
  lemma {:induction false} KeyExactly(c: Config, bitrate: u32, d: DecoderState, events: seq<Event>, links: seq<Link>,
                                      i: nat)
    requires c.Valid() && IsRun(c, StartLink(c, bitrate, d), events, links) && i <= |events|
    ensures links[i].enc.keyRequested || !links[i].enc.hasRef <==> KeyDue(c, events, i)
    ensures !links[i].enc.hasRef ==> links[i].enc.keyRequested
  {
    if i > 0 {
      KeyExactly(c, bitrate, d, events, links, i - 1);
      EncoderEvent(c, StartLink(c, bitrate, d), events, links, i - 1, i);
      DueStep(c, events, i - 1, i);
    }
  }

  lemma HeaderStart(h: Header, rest: seq<u8>, p: seq<u8>)
    requires p == HeaderBytes(h) + rest
    ensures |p| >= 16 && p[12] == h.flags && p[4..8] == Be32(h.frameId) && p[16..] == rest
  {
    HeaderSlices(h, HeaderBytes(h));
    assert p[4..8] == HeaderBytes(h)[4..8];
  }

  lemma PacketIs(c: Config, e: EncoderState, frame: seq<Pixel>, content: seq<ContentType>, s: Sending, h: Header)
    requires e.Valid(c) && |frame| == c.g.Area() && |content| == c.g.NumTiles()
    requires s == SendingOf(c, e, frame, content) && s.Valid() && h == HeaderFor(c.g, Counted(e.counter), IsKey(e))
    ensures PacketFor(c, e, frame, content) == HeaderBytes(h) + BodyBytes(Codes(s.modes), s.mvs, SectionsOf(s))
  {
  }

  /** Byte 12 says so on the wire, and bytes 4 to 7 hold the frame's number. */
  lemma KeyOnTheWire(c: Config, e: EncoderState, frame: seq<Pixel>, content: seq<ContentType>, p: seq<u8>)
    requires e.Valid(c) && |frame| == c.g.Area() && |content| == c.g.NumTiles()
    requires p == PacketFor(c, e, frame, content)
    ensures |p| >= 16 && p[12] == (if e.keyRequested || !e.hasRef then 1 else 0)
    ensures p[4..8] == Be32(ToU32(e.counter + 1))
  {
    SendingIsValid(c, e, frame, content);
    var s, h := SendingOf(c, e, frame, content), HeaderFor(c.g, Counted(e.counter), IsKey(e));
    PacketIs(c, e, frame, content, s, h);
    HeaderStart(h, BodyBytes(Codes(s.modes), s.mvs, SectionsOf(s)), p);
    HeaderSays(c, e, h);
  }

  lemma HeaderSays(c: Config, e: EncoderState, h: Header)
    requires c.Valid() && h == HeaderFor(c.g, Counted(e.counter), IsKey(e))
    ensures h.flags == (if e.keyRequested || !e.hasRef then 1 else 0)
    ensures h.frameId == ToU32(e.counter + 1)
  {
  }

  // ---- Nothing new, nothing sent ----

  /** What the encoder knows of the last frame it took. */
  ghost predicate Knows(c: Config, e: EncoderState, frame: seq<Pixel>)
  {
    && e.Valid(c) && e.hasRef && !e.keyRequested && e.ref == frame && |frame| == c.g.Area()
    && e.hashes == TileHashes(c, frame)
  }

  /** No frame is taken, and no keyframe requested, from event `from` up to event `to`. */
  ghost predicate Idle(c: Config, events: seq<Event>, from: nat, to: nat)
    requires to <= |events|
  {
    forall k :: from <= k < to ==> !Taken(c, events[k]) && !events[k].RequestKeyFrame?
  }

  /** After a frame is taken the encoder knows it, and no keyframe is due, until the next frame or
      request. */
  lemma {:induction false} TakenIsKnown(c: Config, start: Link, events: seq<Event>, links: seq<Link>, j: nat, i: nat)
    requires c.Valid() && IsRun(c, start, events, links) && j < i <= |events|
    requires Taken(c, events[j]) && Idle(c, events, j + 1, i)
    ensures links[i].Valid(c) && Knows(c, links[i].enc, events[j].input.pixels)
  {
    EncoderEvent(c, start, events, links, i - 1, i);
    LinkValid(c, start, events, links, i);
    if i > j + 1 {
      TakenIsKnown(c, start, events, links, j, i - 1);
    }
  }

  lemma LinkValid(c: Config, start: Link, events: seq<Event>, links: seq<Link>, i: nat)
    requires IsRun(c, start, events, links) && i <= |events|
    ensures links[i].Valid(c)
  {
    if i < |events| {
      assert StepAt(c, events, links, i);
    } else if i > 0 {
      assert StepAt(c, events, links, i - 1);
      EventKeepsValid(c, links[i - 1], events[i - 1]);
    }
  }

  lemma EventKeepsValid(c: Config, l: Link, ev: Event)
    requires l.Valid(c) && Possible(c, ev)
    ensures Step(c, l, ev).Valid(c)
  {
    if ev.Show? && Accepts(c, ev.input) {
      ShapeAfterFrame(c, l, ev.input.pixels, ev.content, ev.delivered, Step(c, l, ev));
    }
  }

  /** A tile that is as it was in the known frame is sent as SKIP. */
  lemma SameTileIsSkipped(c: Config, e: EncoderState, ref: seq<Pixel>, frame: seq<Pixel>, content: seq<ContentType>,
                          t: nat)
    requires Knows(c, e, ref) && |frame| == c.g.Area() && |content| == c.g.NumTiles() && t < c.g.NumTiles()
    requires TileOf(frame, c.g, t) == TileOf(ref, c.g, t)
    ensures FrameModes(c, e, frame, content)[t] == SKIP
  {
    assert TileHashes(c, ref)[t] == (c.hash)(TileOf(ref, c.g, t));
  }

  // ---- Bit groups of zeros ----

  ghost predicate Zeros(s: seq<int>) { forall i :: 0 <= i < |s| ==> s[i] == 0 }

  ghost predicate ZeroWriter(w: Writer, bits: nat)
  {
    Zeros(w.buf) && Zeros(w.pending) && |w.pending| < 8 && bits == 8 * |w.buf| + |w.pending|
  }

  lemma {:induction false} ZeroBits(bs: seq<bit>)
    requires Zeros(bs)
    ensures FromBits(bs) == 0
  {
    if bs != [] {
      ZeroBits(bs[..|bs| - 1]);
    }
  }

  lemma ZeroBit(w: Writer, bits: nat)
    requires ZeroWriter(w, bits)
    ensures ZeroWriter(PutBit(w, 0), bits + 1)
  {
    ZeroBits(w.pending + [0]);
  }

  lemma ZeroCode(w: Writer, bits: nat)
    requires ZeroWriter(w, bits)
    ensures ZeroWriter(Put(w, Bits(0, 3)), bits + 3)
  {
    assert LowBits(0, 3) == [0, 0, 0];
    ThreeBits(w);
    ZeroBit(w, bits);
    ZeroBit(PutBit(w, 0), bits + 1);
    ZeroBit(PutBit(PutBit(w, 0), 0), bits + 2);
  }

  lemma ThreeBits(w: Writer)
    ensures PutSeq(w, [0, 0, 0]) == PutBit(PutBit(PutBit(w, 0), 0), 0)
  {
    var w1 := PutBit(w, 0);
    var w2 := PutBit(w1, 0);
    assert [0, 0, 0][1..] == [0, 0] && [0, 0][1..] == [0] && [0][1..] == [];
    assert PutSeq(w2, [0]) == PutBit(w2, 0);
    assert PutSeq(w1, [0, 0]) == PutSeq(w2, [0]);
  }

  lemma {:induction false} ZeroCodes(w: Writer, codes: seq<u8>, bits: nat)
    requires Zeros(codes) && ZeroWriter(w, bits)
    ensures ZeroWriter(PutAll(w, CodeFields(codes)), bits + 3 * |codes|)
    decreases |codes|
  {
    if codes != [] {
      ZeroCode(w, bits);
      assert CodeFields(codes)[0] == Bits(0, 3) && CodeFields(codes)[1..] == CodeFields(codes[1..]);
      ZeroCodes(Put(w, Bits(0, 3)), codes[1..], bits + 3);
    }
  }

  lemma ZeroGroup(codes: seq<u8>)
    requires Zeros(codes)
    ensures BitGroup(CodeFields(codes)) == seq((3 * |codes| + 7) / 8, _ => 0)
  {
    ZeroCodes(EMPTY_WRITER, codes, 0);
    var w := PutAll(EMPTY_WRITER, CodeFields(codes));
    if |w.pending| > 0 {
      ZeroBits(w.pending + seq(8 - |w.pending|, i => 0));
    }
  }

  lemma EmptyBody(codes: seq<u8>, mvs: seq<(int, int)>)
    requires Zeros(codes) && |codes| == |mvs|
    ensures BodyBytes(codes, mvs, []) == seq((3 * |codes| + 7) / 8 + 2, _ => 0)
  {
    ZeroGroup(codes);
    NoMotion(codes, mvs, 0);
    assert Be16(ToU16(0)) == [0, 0];
    assert Concat([]) == [] && SizeBytes([]) == [];
  }

  lemma AllSkipped(c: Config, e: EncoderState, frame: seq<Pixel>, content: seq<ContentType>, s: Sending)
    requires Knows(c, e, frame) && |content| == c.g.NumTiles() && s == SendingOf(c, e, frame, content) && s.Valid()
    ensures Zeros(Codes(s.modes)) && |s.modes| == c.g.NumTiles() && SectionsOf(s) == []
  {
    forall t | 0 <= t < c.g.NumTiles()
      ensures s.modes[t] == SKIP
    {
      SameTileIsSkipped(c, e, frame, frame, content, t);
    }
    NoSections(Codes(s.modes), Payloads(s.g, s.frame, s.modes, s.q), |s.modes|);
  }

  /** A frame that shows nothing new is a packet of header and zeros: all modes SKIP, no payload. */
  lemma SameFrameIsEmpty(c: Config, e: EncoderState, frame: seq<Pixel>, content: seq<ContentType>, p: seq<u8>)
    requires Knows(c, e, frame) && |content| == c.g.NumTiles() && p == PacketFor(c, e, frame, content)
    ensures |p| >= 16 && p[12] == 0 && p[16..] == seq((3 * c.g.NumTiles() + 7) / 8 + 2, _ => 0)
  {
    SendingIsValid(c, e, frame, content);
    var s, h := SendingOf(c, e, frame, content), HeaderFor(c.g, Counted(e.counter), IsKey(e));
    AllSkipped(c, e, frame, content, s);
    PacketIs(c, e, frame, content, s, h);
    EmptyBody(Codes(s.modes), s.mvs);
    HeaderStart(h, BodyBytes(Codes(s.modes), s.mvs, []), p);
  }

  lemma {:induction false} NoMotion(codes: seq<u8>, mvs: seq<(int, int)>, t: nat)
    requires Zeros(codes) && t <= |codes| == |mvs|
    ensures MotionBytes(codes, mvs, t) == []
    decreases |codes| - t
  {
    if t < |codes| {
      NoMotion(codes, mvs, t + 1);
    }
  }

  lemma {:induction false} NoSections(codes: seq<u8>, payloads: seq<seq<u8>>, n: nat)
    requires Zeros(codes) && n <= |codes| && |payloads| == |codes|
    ensures Sections(codes, payloads, n) == []
  {
    if n > 0 {
      NoSections(codes, payloads, n - 1);
    }
  }

  /** Main result: showing the last frame again, with no request in between, sends no payload. */
  lemma RepeatedFrameIsEmpty(c: Config, start: Link, events: seq<Event>, links: seq<Link>, j: nat, i: nat,
                             e: EncoderState, p: seq<u8>)
    requires c.Valid() && IsRun(c, start, events, links) && j < i < |events| && e == links[i].enc
    requires Taken(c, events[j]) && Idle(c, events, j + 1, i)
    requires Taken(c, events[i]) && events[i].input.pixels == events[j].input.pixels
    ensures e.Valid(c) && |events[i].input.pixels| == c.g.Area() && |events[i].content| == c.g.NumTiles()
    ensures p == PacketFor(c, e, events[i].input.pixels, events[i].content) ==>
      |p| >= 16 && p[12] == 0 && p[16..] == seq((3 * c.g.NumTiles() + 7) / 8 + 2, _ => 0)
  {
    TakenIsKnown(c, start, events, links, j, i);
    EncoderEvent(c, start, events, links, i, i + 1);
    if p == PacketFor(c, e, events[i].input.pixels, events[i].content) {
      SameFrameIsEmpty(c, e, events[i].input.pixels, events[i].content, p);
    }
  }

  // ---- Numbers and rates ----

  /** How many of the first i events are frames taken. */
  ghost function TakenBefore(c: Config, events: seq<Event>, i: nat): nat
    requires i <= |events|
  {
    if i == 0 then 0 else TakenBefore(c, events, i - 1) + if Taken(c, events[i - 1]) then 1 else 0
  }

  /** The rate set last among the first i events. */
  function LastRate(events: seq<Event>, i: nat): Option<u32>
    requires i <= |events|
  {
    if i == 0 then None
    else if events[i - 1].UpdateBitrate? then Some(events[i - 1].bps)
    else LastRate(events, i - 1)
  }

  lemma RateAfter(c: Config, start: Link, events: seq<Event>, links: seq<Link>, i: nat, next: nat)
    requires IsRun(c, start, events, links) && i < |events| && next == i + 1
    ensures var e, e1 := links[i].enc, links[next].enc;
      if events[i].UpdateBitrate? then e1.bitrate == events[i].bps && e1.baseQP == BaseQP(events[i].bps)
      else e1.bitrate == e.bitrate && e1.baseQP == e.baseQP
  {
    assert StepAt(c, events, links, i);
  }

  lemma NextNumber(n: u32, k: nat)
    requires n == ToU32(k)
    ensures (n + 1) % 0x1_0000_0000 == ToU32(k + 1)
  {
  }

  /** Frames are counted from 1, modulo 2^32. */
  lemma {:induction false} NumberInForce(c: Config, bitrate: u32, d: DecoderState, events: seq<Event>,
                                         links: seq<Link>, i: nat)
    requires c.Valid() && IsRun(c, StartLink(c, bitrate, d), events, links) && i <= |events|
    ensures links[i].enc.counter == ToU32(TakenBefore(c, events, i))
  {
    if i > 0 {
      NumberInForce(c, bitrate, d, events, links, i - 1);
      EncoderEvent(c, StartLink(c, bitrate, d), events, links, i - 1, i);
      NextNumber(links[i - 1].enc.counter, TakenBefore(c, events, i - 1));
    }
  }

  /** The rate set last decides the base parameter, which is 26 before any is set. */
  lemma {:induction false} RateInForce(c: Config, bitrate: u32, d: DecoderState, events: seq<Event>, links: seq<Link>,
                                       i: nat)
    requires c.Valid() && IsRun(c, StartLink(c, bitrate, d), events, links) && i <= |events|
    ensures LastRate(events, i) == None ==> links[i].enc.bitrate == bitrate && links[i].enc.baseQP == 26
    ensures LastRate(events, i).Some? ==>
      var bps := LastRate(events, i).value;
      links[i].enc.bitrate == bps && links[i].enc.baseQP == BaseQP(bps)
  {
    if i > 0 {
      RateInForce(c, bitrate, d, events, links, i - 1);
      RateAfter(c, StartLink(c, bitrate, d), events, links, i - 1, i);
    }
  }
}
