/** What the decoder makes of a packet the encoder has built. */
module OmniRoundTrip {
  import opened Words
  import opened Bitstream
  import opened FrequencyTable
  import opened Rans
  import opened Residuals
  import opened Frames
  import opened Blocks
  import opened Predict
  import opened Tiles
  import NearLossless
  import opened OmniFormat

  // ---- Mode map ----

  lemma {:induction false} SeqSticky(r: Reader, n: nat)
    ensures r.error ==> GetSeq(r, n).1.error
    decreases n
  {
    if n > 0 && GetBit(r).0.Some? {
      SeqSticky(GetBit(r).1, n - 1);
    }
  }

  lemma {:induction false} FieldsSticky(r: Reader, codes: seq<u8>)
    requires AllLegal(CodeFields(codes))
    ensures r.error ==> GetAll(r, CodeFields(codes)).1.error
    decreases |codes|
  {
    if codes != [] {
      CodeFieldsTail(codes);
      SeqSticky(r, 3);
      FieldsSticky(GetBits(r, 3).1, codes[1..]);
    }
  }

  lemma CodeFieldsTail(codes: seq<u8>)
    requires codes != []
    ensures CodeFields(codes) == [Bits(codes[0], 3)] + CodeFields(codes[1..])
    ensures CodeFields(codes)[1..] == CodeFields(codes[1..])
  {
  }

  lemma CodesLegal(codes: seq<u8>)
    requires forall c :: c in codes ==> c < 8
    ensures AllLegal(CodeFields(codes))
  {
    assert Pow2(3) == 8;
    forall i | 0 <= i < |codes|
      ensures Legal(CodeFields(codes)[i])
    {
      assert codes[i] in codes;
    }
  }

  lemma {:induction false} CodesFollow(r: Reader, codes: seq<u8>, r': Reader)
    requires AllLegal(CodeFields(codes))
    requires GetAll(r, CodeFields(codes)) == (CodeFields(codes), r') && !r'.error
    ensures ReadCodes(r, |codes|) == Done((codes, r'))
    decreases |codes|
  {
    if codes != [] {
      CodeFieldsTail(codes);
      var r1 := GetBits(r, 3).1;
      var more := GetAll(r1, CodeFields(codes[1..]));
      assert GetAll(r, CodeFields(codes)) == ([Bits(GetBits(r, 3).0, 3)] + more.0, more.1);
      assert ([Bits(GetBits(r, 3).0, 3)] + more.0)[0] == CodeFields(codes)[0];
      assert ([Bits(GetBits(r, 3).0, 3)] + more.0)[1..] == CodeFields(codes)[1..];
      FieldsSticky(r1, codes[1..]);
      CodesFollow(r1, codes[1..], r');
      assert codes == [codes[0]] + codes[1..];
    }
  }

  lemma CodesRead(r: Reader, codes: seq<u8>)
    requires forall c :: c in codes ==> c < 8
    requires Has(r, BitGroup(CodeFields(codes)))
    ensures var res := ReadCodes(r, |codes|);
      res.Done? && res.value.0 == codes && Align(res.value.1) == Skip(r, |BitGroup(CodeFields(codes))|)
  {
    CodesLegal(codes);
    BitGroupRead(r, CodeFields(codes));
    CodesFollow(r, codes, GetAll(r, CodeFields(codes)).1);
  }

  // ---- Motion vectors ----

  /** COPY tiles have vectors that fit int8 and int16; the others have none. */
  ghost predicate ValidMotion(codes: seq<u8>, mvs: seq<(int, int)>)
  {
    && |codes| == |mvs|
    && forall t :: 0 <= t < |codes| ==>
        if codes[t] == 1 then -0x80 <= mvs[t].0 < 0x80 && -0x8000 <= mvs[t].1 < 0x8000 else mvs[t] == (0, 0)
  }

  lemma SignedBack(x: int, y: int)
    requires -0x80 <= x < 0x80 && -0x8000 <= y < 0x8000
    ensures ToI8(ToU8(x)) == x && ToI16(ToU16(y)) == y
  {
  }

  lemma TwoFieldsRead(r: Reader, a: u8, b: u16, more: seq<u8>)
    requires Has(r, [a] + (Be16(b) + more))
    ensures GetU8(r) == (a, Skip(r, 1)) && GetU16(Skip(r, 1)) == (b, Skip(r, 3))
  {
    HasSplit(r, [a], Be16(b) + more);
    HasSplit(Skip(r, 1), Be16(b), more);
    U8Read(r, a);
    U16Read(Skip(r, 1), b);
  }

  lemma MotionUnfold(r: Reader, codes: seq<u8>, t: nat, x: u8, y: u16, r2: Reader, mvs: seq<(int, int)>, r3: Reader)
    requires t < |codes| && codes[t] == 1
    requires GetU8(r).0 == x && GetU16(GetU8(r).1) == (y, r2) && !r2.error
    requires ReadMotion(r2, codes, t + 1) == Done((mvs, r3))
    ensures ReadMotion(r, codes, t) == Done(([(ToI8(x), ToI16(y))] + mvs, r3))
  {
  }

  lemma VectorRead(r: Reader, codes: seq<u8>, t: nat, v: (int, int), more: seq<u8>, mvs: seq<(int, int)>, size: nat)
    requires t < |codes| && codes[t] == 1 && -0x80 <= v.0 < 0x80 && -0x8000 <= v.1 < 0x8000
    requires Has(r, [ToU8(v.0)] + (Be16(ToU16(v.1)) + more))
    requires ReadMotion(Skip(r, 3), codes, t + 1) == Done((mvs, Skip(Skip(r, 3), size)))
    ensures ReadMotion(r, codes, t) == Done(([v] + mvs, Skip(r, 3 + size)))
  {
    var x, y := ToU8(v.0), ToU16(v.1);
    TwoFieldsRead(r, x, y, more);
    MotionUnfold(r, codes, t, x, y, Skip(r, 3), mvs, Skip(r, 3 + size));
    SignedBack(v.0, v.1);
  }

  lemma MotionBytesStep(codes: seq<u8>, mvs: seq<(int, int)>, t: nat)
    requires t < |codes| == |mvs|
    ensures MotionBytes(codes, mvs, t)
         == if codes[t] == 1 then [ToU8(mvs[t].0)] + (Be16(ToU16(mvs[t].1)) + MotionBytes(codes, mvs, t + 1))
            else MotionBytes(codes, mvs, t + 1)
  {
    if codes[t] == 1 {
      var more := MotionBytes(codes, mvs, t + 1);
      assert [ToU8(mvs[t].0)] + Be16(ToU16(mvs[t].1)) + more == [ToU8(mvs[t].0)] + (Be16(ToU16(mvs[t].1)) + more);
    } else {
      assert [] + MotionBytes(codes, mvs, t + 1) == MotionBytes(codes, mvs, t + 1);
    }
  }

  lemma {:induction false} MotionRead(r: Reader, codes: seq<u8>, mvs: seq<(int, int)>, t: nat, size: nat)
    requires ValidMotion(codes, mvs) && t <= |codes|
    requires Has(r, MotionBytes(codes, mvs, t)) && size == |MotionBytes(codes, mvs, t)|
    ensures ReadMotion(r, codes, t) == Done((mvs[t..], Skip(r, size)))
    decreases |codes| - t
  {
    if t < |codes| {
      MotionBytesStep(codes, mvs, t);
      assert mvs[t..] == [mvs[t]] + mvs[t + 1..];
      if codes[t] == 1 {
        var more := MotionBytes(codes, mvs, t + 1);
        HasSplit(r, [ToU8(mvs[t].0)] + Be16(ToU16(mvs[t].1)), more) by {
          assert [ToU8(mvs[t].0)] + Be16(ToU16(mvs[t].1)) + more == MotionBytes(codes, mvs, t);
        }
        MotionRead(Skip(r, 3), codes, mvs, t + 1, |more|);
        VectorRead(r, codes, t, mvs[t], more, mvs[t + 1..], |more|);
      } else {
        MotionRead(r, codes, mvs, t + 1, size);
      }
    }
  }

  // ---- Sizes and payloads ----

  function Lengths(sections: seq<seq<u8>>): (s: seq<nat>)
    ensures |s| == |sections|
  {
    seq(|sections|, j requires 0 <= j < |sections| => |sections[j]|)
  }

  ghost predicate AllSmall(sections: seq<seq<u8>>)
  {
    forall j :: 0 <= j < |sections| ==> |sections[j]| < 0x1_0000_0000
  }

  lemma {:induction false} SizesRead(r: Reader, sections: seq<seq<u8>>, size: nat)
    requires AllSmall(sections)
    requires Has(r, SizeBytes(sections)) && size == |SizeBytes(sections)|
    ensures ReadSizes(r, |sections|) == Done((Lengths(sections), Skip(r, size)))
    decreases |sections|
  {
    if sections != [] {
      var n, more := |sections[0]|, SizeBytes(sections[1..]);
      assert ToU32(n) == n;
      HasSplit(r, Be32(n), more);
      U32Read(r, n);
      SizesRead(Skip(r, 4), sections[1..], |more|);
      assert Lengths(sections) == [n] + Lengths(sections[1..]);
    }
  }

  lemma {:induction false} ConcatLength(sections: seq<seq<u8>>)
    ensures |Concat(sections)| == Sum(Lengths(sections))
  {
    if sections != [] {
      var front := sections[..|sections| - 1];
      ConcatLength(front);
      assert Lengths(sections)[..|sections| - 1] == Lengths(front);
    }
  }

  lemma {:induction false} ConcatAt(sections: seq<seq<u8>>, j: nat)
    requires j < |sections|
    ensures var a := Sum(Lengths(sections)[..j]);
      a + |sections[j]| <= |Concat(sections)| && Concat(sections)[a..a + |sections[j]|] == sections[j]
  {
    var front := sections[..|sections| - 1];
    assert Lengths(sections)[..|sections| - 1] == Lengths(front);
    ConcatLength(front);
    if j < |sections| - 1 {
      ConcatAt(front, j);
      assert Lengths(sections)[..j] == Lengths(front)[..j];
      var a := Sum(Lengths(sections)[..j]);
      assert Concat(sections)[a..a + |sections[j]|] == Concat(front)[a..a + |sections[j]|];
    }
  }

  lemma PayloadIs(data: seq<u8>, start: nat, sections: seq<seq<u8>>, j: nat)
    requires j < |sections| && start + |Concat(sections)| == |data| && data[start..] == Concat(sections)
    ensures start + Sum(Lengths(sections)) <= |data|
    ensures Payload(data, start, Lengths(sections), j) == sections[j]
  {
    ConcatLength(sections);
    ConcatAt(sections, j);
    var a := Sum(Lengths(sections)[..j]);
    assert data[start + a..start + a + |sections[j]|] == data[start..][a..a + |sections[j]|];
  }

  // ---- Sizes of the parts of a tile ----

  lemma {:induction false} PutSeqLength(w: Writer, bs: seq<bit>)
    ensures |PutSeq(w, bs).buf| <= |w.buf| + |bs|
    decreases |bs|
  {
    if bs != [] {
      PutSeqLength(PutBit(w, bs[0]), bs[1..]);
    }
  }

  lemma {:induction false} BitGroupLength(w: Writer, fs: seq<Field>)
    requires forall f :: f in fs ==> f.Bits? && f.n <= 8
    ensures |PutAll(w, fs).buf| <= |w.buf| + 8 * |fs|
    decreases |fs|
  {
    if fs != [] {
      PutSeqLength(w, LowBits(fs[0].val, fs[0].n));
      BitGroupLength(Put(w, fs[0]), fs[1..]);
    }
  }

  lemma {:induction false} EntryBytesLength(freqs: seq<nat>, i: nat)
    requires |freqs| == 256 && i <= 256
    ensures |EntryBytes(freqs, i)| <= 3 * (256 - i)
    decreases 256 - i
  {
    if i < 256 {
      EntryBytesLength(freqs, i + 1);
    }
  }

  lemma ResidualLength(syms: seq<u8>)
    requires |syms| <= MAX_SYMBOLS
    ensures |ResidualBytes(syms)| <= 2 * |syms| + 1000
  {
    if !AllAlike(syms) {
      var t := TableOf(syms);
      EncodeInRange(4, syms, t, 0);
      EntryBytesLength(Freqs(t), 0);
    }
  }

  lemma SmallGroup(fs: seq<Field>)
    requires |fs| <= 4 && forall f :: f in fs ==> f.Bits? && f.n <= 8
    ensures |BitGroup(fs)| <= 33
  {
    BitGroupLength(EMPTY_WRITER, fs);
  }

  lemma TileBytesSmall(m: TileMode, q: Quality, w: nat, h: nat, tile: seq<Pixel>)
    requires |tile| == w * h && FitsSection(w * h) && ValidQuality(q)
    ensures |TileBytes(m, q, w, h, tile)| < 0x1_0000_0000
  {
    match m
    case SKIP =>
    case COPY =>
    case LOSSLESS => LosslessBytesSmall(w, h, tile);
    case NEAR_LOSSLESS => NearBytesSmall(w, h, tile, q.step);
    case LOSSY => LossyBytesSmall(q.transform, w, h, tile, q.qp);
  }

  lemma LosslessBytesSmall(w: nat, h: nat, tile: seq<Pixel>)
    requires |tile| == w * h && FitsSection(w * h)
    ensures |LosslessBytes(ALONE, Alone(w, h, tile), w, h, tile)| <= 2 * MAX_SYMBOLS + 1067
  {
    var modes := Modes(ALONE, w, h, tile);
    var res := TileResiduals(ALONE, modes, w, h, tile);
    ThreeFit(w * h, res);
    LosslessParts(ALONE, w, h, tile, modes, res);
    FourFieldsSmall(modes, SingleByte(res));
    ResidualLength(SymbolsOf(res));
  }

  lemma FourFieldsSmall(m: Three<PredMode>, flag: bool)
    ensures |BitGroup(ModeFields(m) + [FlagField(flag)])| <= 33
  {
    SmallGroup(ModeFields(m) + [FlagField(flag)]);
  }

  lemma LossyBytesSmall(t: CosTables, w: nat, h: nat, tile: seq<Pixel>, qp: nat)
    requires |tile| == w * h && FitsSection(w * h)
    ensures |LossyBytes(t, w, h, tile, qp)| <= 2 * MAX_SYMBOLS + 1067
  {
    var c := Coefficients(t, w, h, tile, qp);
    ThreeFit(w * h, c);
    PartsSmall([Bits(BlockCode(BlockSize(w, h)), 2)], ToU8(qp), c);
  }

  lemma ValueBytesSmall(vals: seq<int>)
    requires FitsValues(|vals|)
    ensures |ValueBytes(vals)| <= 2 * MAX_SYMBOLS + 1033
  {
    SmallGroup([FlagField(SingleByte(vals))]);
    ResidualLength(SymbolsOf(vals));
  }

  lemma PartsSmall(fs: seq<Field>, q: u8, vals: seq<int>)
    requires |fs| <= 4 && forall f :: f in fs ==> f.Bits? && f.n <= 8
    requires FitsValues(|vals|)
    ensures |BitGroup(fs) + ([q] + ValueBytes(vals))| <= 2 * MAX_SYMBOLS + 1067
  {
    SmallGroup(fs);
    ValueBytesSmall(vals);
  }

  lemma NearBytesSmall(w: nat, h: nat, tile: seq<Pixel>, q: nat)
    requires |tile| == w * h && FitsSection(w * h) && q > 0
    ensures |NearLosslessBytes(ALONE, Alone(w, h, tile), w, h, tile, q)| <= 2 * MAX_SYMBOLS + 1067
  {
    var modes := Modes(ALONE, w, h, tile);
    ThreeFit(w * h, NearLossless.Quantised(TileResiduals(ALONE, modes, w, h, tile), q));
    PartsSmall(ModeFields(modes), ToU8(q), NearLossless.Quantised(TileResiduals(ALONE, modes, w, h, tile), q));
  }

  // ---- Sections of a frame ----

  lemma SectionSmall(g: Grid, frame: seq<Pixel>, m: TileMode, q: Quality, t: nat)
    requires ValidGrid(g) && |frame| == g.Area() && ValidQuality(q) && t < g.NumTiles()
    ensures |SectionOf(g, frame, m, q, t)| < 0x1_0000_0000
  {
    TileFits(g, t);
    TileBytesSmall(m, q, TileBox(g, t).w, TileBox(g, t).h, TileOf(frame, g, t));
  }

  lemma PayloadsSmall(g: Grid, frame: seq<Pixel>, modes: seq<TileMode>, q: Quality)
    requires ValidGrid(g) && |frame| == g.Area() && ValidQuality(q) && |modes| == g.NumTiles()
    ensures AllSmall(Payloads(g, frame, modes, q))
  {
    forall t | 0 <= t < |modes|
      ensures |Payloads(g, frame, modes, q)[t]| < 0x1_0000_0000
    {
      SectionSmall(g, frame, modes[t], q, t);
    }
  }

  lemma {:induction false} SectionsShape(codes: seq<u8>, payloads: seq<seq<u8>>, t: nat)
    requires t <= |codes| == |payloads| && AllSmall(payloads)
    ensures |Sections(codes, payloads, t)| == JobsBefore(codes, t)
    ensures AllSmall(Sections(codes, payloads, t))
  {
    if t > 0 {
      SectionsShape(codes, payloads, t - 1);
    }
  }

  /** Job j of the frame is the payload of the j-th coded tile. */
  lemma {:induction false} SectionOfJob(codes: seq<u8>, payloads: seq<seq<u8>>, t: nat, n: nat, sections: seq<seq<u8>>)
    requires t < n <= |codes| == |payloads| && AllSmall(payloads)
    requires IsCoded(codes[t]) && sections == Sections(codes, payloads, n)
    ensures JobsBefore(codes, t) < |sections| && sections[JobsBefore(codes, t)] == payloads[t]
  {
    var before := Sections(codes, payloads, n - 1);
    SectionsShape(codes, payloads, n - 1);
    if t < n - 1 {
      SectionOfJob(codes, payloads, t, n - 1, before);
      assert before <= sections;
    }
  }
}
