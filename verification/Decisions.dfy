/** What the encoder decides, in plain terms: src/codec/omni/omni_encoder.cpp:93-109, :213-237 and
    :377-391. */
module Decisions {
  import opened Words
  import opened Frames
  import opened OmniFormat
  import opened OmniRuns
  import opened ScrollDetection

  /** The reference repeats tile t of the frame at some vertical offset. */
  ghost predicate Scrolled(c: Config, ref: seq<Pixel>, frame: seq<Pixel>, t: nat)
    requires c.Valid() && |ref| == c.g.Area() && |frame| == c.g.Area() && t < c.g.NumTiles()
  {
    var b := TileBox(c.g, t);
    exists dy :: Repeats(TileRowHashes(c.hash, frame, c.g, b.y, b.h), RowHashes(c.hash, ref, c.g), b.y, dy)
  }

  lemma ScrolledIsDetected(c: Config, ref: seq<Pixel>, frame: seq<Pixel>, t: nat)
    requires c.Valid() && |ref| == c.g.Area() && |frame| == c.g.Area() && t < c.g.NumTiles()
    ensures TileScroll(c, ref, frame, t).detected <==> Scrolled(c, ref, frame, t)
  {
    var b := TileBox(c.g, t);
    ScrollExactly(TileRowHashes(c.hash, frame, c.g, b.y, b.h), RowHashes(c.hash, ref, c.g), b.y,
                  TileScroll(c, ref, frame, t));
  }

  /** The encoder has a reference, knows its tiles, and owes no keyframe. */
  ghost predicate Ready(c: Config, e: EncoderState)
  {
    e.Valid(c) && e.hasRef && !e.keyRequested && e.hashes == TileHashes(c, e.ref)
  }

  lemma SkipMeans(c: Config, e: EncoderState, frame: seq<Pixel>, content: seq<ContentType>, t: nat)
    requires Ready(c, e) && |frame| == c.g.Area() && |content| == c.g.NumTiles() && t < c.g.NumTiles()
    ensures FrameModes(c, e, frame, content)[t] == SKIP
       <==> (c.hash)(TileOf(frame, c.g, t)) == (c.hash)(TileOf(e.ref, c.g, t))
  {
    assert TileHashes(c, e.ref)[t] == (c.hash)(TileOf(e.ref, c.g, t));
  }

  /** A tile is skipped when it hashes like before, else copied when the page has scrolled under it,
      else coded: text exactly, moving pictures lossily, still ones nearly, the rest by the rate. */
  lemma ModeMeans(c: Config, e: EncoderState, frame: seq<Pixel>, content: seq<ContentType>, t: nat, m: TileMode)
    requires Ready(c, e) && |frame| == c.g.Area() && |content| == c.g.NumTiles() && t < c.g.NumTiles()
    requires m == FrameModes(c, e, frame, content)[t]
    ensures m != SKIP ==> (m == COPY <==> c.scroll && Scrolled(c, e.ref, frame, t))
    ensures m == LOSSY ==> content[t] == MOTION
    ensures m == NEAR_LOSSLESS ==> content[t] == STATIC || (content[t] == UNKNOWN && e.bitrate <= 2_000_000)
    ensures m == LOSSLESS ==> content[t] == TEXT || (content[t] == UNKNOWN && e.bitrate > 2_000_000)
  {
    ScrolledIsDetected(c, e.ref, frame, t);
  }

  /** Before there is a reference, or when one is asked for, every tile is exact. */
  lemma KeyMeans(c: Config, e: EncoderState, frame: seq<Pixel>, content: seq<ContentType>, t: nat)
    requires e.Valid(c) && (e.keyRequested || !e.hasRef)
    requires |frame| == c.g.Area() && |content| == c.g.NumTiles() && t < c.g.NumTiles()
    ensures FrameModes(c, e, frame, content)[t] == LOSSLESS
  {
  }

  /** The vector of a COPY tile is the first vertical offset at which the reference repeats most of its
      rows; other tiles have none. */
  lemma VectorMeans(c: Config, e: EncoderState, frame: seq<Pixel>, content: seq<ContentType>, t: nat, b: Box,
                    cur: seq<int>, ref: seq<int>, dy: int)
    requires Ready(c, e) && |frame| == c.g.Area() && |content| == c.g.NumTiles() && t < c.g.NumTiles()
    requires b == TileBox(c.g, t) && cur == TileRowHashes(c.hash, frame, c.g, b.y, b.h)
    requires ref == RowHashes(c.hash, e.ref, c.g)
    requires dy == FrameMotion(c, e.ref, frame, FrameModes(c, e, frame, content))[t].1
    ensures FrameMotion(c, e.ref, frame, FrameModes(c, e, frame, content))[t].0 == 0
    ensures FrameModes(c, e, frame, content)[t] != COPY ==> dy == 0
    ensures FrameModes(c, e, frame, content)[t] == COPY ==>
      Repeats(cur, ref, b.y, dy)
      && forall o :: -512 <= o <= 512 && o != 0 ==>
          |Agreeing(cur, ref, b.y, o, |cur|)| <= |Agreeing(cur, ref, b.y, dy, |cur|)|
          && (o < dy ==> |Agreeing(cur, ref, b.y, o, |cur|)| < |Agreeing(cur, ref, b.y, dy, |cur|)|)
  {
    ScrollExactly(cur, ref, b.y, Scroll(cur, ref, b.y));
  }

  /** The quantisation step is the configured maximum error, and at least 1. */
  lemma StepMeans(c: Config)
    requires c.maxError <= 255
    ensures c.Step() == if c.maxError >= 1 then c.maxError else 1
  {
  }

  /** The base parameter: 40 below 500 kbit/s; up to 2 Mbit/s 26 and one more for every full 100 kbit/s
      short of that; up to 8 Mbit/s 15 and one more for every full 550 kbit/s short of that; then 15. */
  lemma BaseParameter(bps: u32, qp: nat)
    requires qp == BaseQP(bps)
    ensures bps < 500_000 ==> qp == 40
    ensures 500_000 <= bps < 2_000_000 ==>
      26 <= qp <= 41 && 100_000 * (qp - 26) <= 2_000_000 - bps < 100_000 * (qp - 25)
    ensures 2_000_000 <= bps < 8_000_000 ==>
      15 <= qp <= 25 && 550_000 * (qp - 15) <= 8_000_000 - bps < 550_000 * (qp - 14)
    ensures bps >= 8_000_000 ==> qp == 15
  {
  }
}
