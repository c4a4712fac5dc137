/** The bytes of a packet, spelled out: src/core/types.h:19-39, src/codec/omni/omni_types.h:51-93,
    src/codec/omni/bitstream.cpp:9-67, src/codec/omni/tile_encoder.cpp:127-186 and
    src/codec/omni/omni_encoder.cpp:131-346.  A writer and a reader that share a wrong layout still agree
    with each other; they do not agree with these. */
module WireBytes {
  import opened Words
  import opened Bitstream
  import opened Rans
  import opened Residuals
  import opened Tiles
  import opened FrameHeader
  import opened Frames
  import opened Predict
  import opened Color
  import opened NearLossless
  import opened Blocks
  import opened OmniFormat

  ghost function Number(a: int, b: int, c: int, d: int): int { ((a * 256 + b) * 256 + c) * 256 + d }

  /** Most significant byte first. */
  lemma BigEndian(v: u32, half: u16)
    ensures Number(Be32(v)[0], Be32(v)[1], Be32(v)[2], Be32(v)[3]) == v && |Be32(v)| == 4
    ensures Number(0, 0, Be16(half)[0], Be16(half)[1]) == half && |Be16(half)| == 2
  {
    Be32RoundTrip(v);
  }

  /** A key frame of 640 by 480 pixels in tiles of 64: 10 by 8 of them. */
  lemma HeaderOnTheWire()
    ensures HeaderBytes(Header(0x4F43_4F44, 7, 640, 480, KeyFlags(true), 64, 10, 8))
         == [0x4F, 0x43, 0x4F, 0x44, 0, 0, 0, 7, 2, 128, 1, 224, 1, 64, 10, 8]
  {
  }

  lemma OneMoreBit(bs: seq<bit>, b: bit)
    ensures FromBits(bs + [b]) == 2 * FromBits(bs) + b
  {
    assert (bs + [b])[..|bs|] == bs;
  }

  lemma FourBits(a: bit, b: bit, c: bit, d: bit)
    ensures FromBits([a, b, c, d]) == 8 * a + 4 * b + 2 * c + d
  {
    OneMoreBit([], a);
    OneMoreBit([a], b);
    OneMoreBit([a, b], c);
    OneMoreBit([a, b, c], d);
    assert [] + [a] == [a] && [a] + [b] == [a, b] && [a, b] + [c] == [a, b, c];
    assert [a, b, c] + [d] == [a, b, c, d];
  }

  lemma EightBits(a: bit, b: bit, c: bit, d: bit, e: bit, f: bit, g: bit, h: bit)
    ensures FromBits([a, b, c, d, e, f, g, h])
         == 128 * a + 64 * b + 32 * c + 16 * d + 8 * e + 4 * f + 2 * g + h
  {
    FourBits(a, b, c, d);
    OneMoreBit([a, b, c, d], e);
    OneMoreBit([a, b, c, d, e], f);
    OneMoreBit([a, b, c, d, e, f], g);
    OneMoreBit([a, b, c, d, e, f, g], h);
    assert [a, b, c, d] + [e] == [a, b, c, d, e] && [a, b, c, d, e] + [f] == [a, b, c, d, e, f];
    assert [a, b, c, d, e, f] + [g] == [a, b, c, d, e, f, g];
    assert [a, b, c, d, e, f, g] + [h] == [a, b, c, d, e, f, g, h];
  }

  lemma ThreeBitCode(a: bit, b: bit, c: bit)
    ensures LowBits(4 * a + 2 * b + c, 3) == [a, b, c]
  {
    var x: nat := 4 * a + 2 * b + c;
    assert Shr(x, 1) == 2 * a + b;
    assert Shr(x, 2) == a;
    assert LowBits(x, 1) == [c];
    assert LowBits(x, 2) == [b, c];
  }

  lemma PutStep(w: Writer, b: bit, bs: seq<bit>)
    ensures PutSeq(w, [b] + bs) == PutSeq(PutBit(w, b), bs)
  {
    assert ([b] + bs)[1..] == bs;
  }

  lemma ThreePut(w: Writer, a: bit, b: bit, c: bit)
    requires |w.pending| <= 4
    ensures PutBits(w, 4 * a + 2 * b + c, 3) == Writer(w.buf, w.pending + [a, b, c])
  {
    ThreeBitCode(a, b, c);
    var w1 := PutBit(w, a);
    var w2 := PutBit(w1, b);
    PutStep(w, a, [b, c]);
    PutStep(w1, b, [c]);
    PutStep(w2, c, []);
    assert [a] + [b, c] == [a, b, c] && [b] + [c] == [b, c] && [c] + [] == [c];
    assert w.pending + [a] + [b] + [c] == w.pending + [a, b, c];
  }

  lemma FieldPut(w: Writer, f: Field, fs: seq<Field>)
    ensures PutAll(w, [f] + fs) == PutAll(Put(w, f), fs)
  {
    assert ([f] + fs)[1..] == fs;
  }

  lemma TwoPut(w: Writer, f: Field, g: Field)
    ensures PutAll(w, [f, g]) == Put(Put(w, f), g)
  {
    FieldPut(w, f, [g]);
    FieldPut(Put(w, f), g, []);
    assert [f] + [g] == [f, g] && [g] + [] == [g];
  }

  lemma FlushedByte(w: Writer, bs: seq<bit>)
    requires w.buf == [] && 0 < |w.pending| < 8 && |bs| == 8 && bs[..|w.pending|] == w.pending
    requires forall k :: |w.pending| <= k < 8 ==> bs[k] == 0
    ensures Flush(w).buf == [FromBits(bs)]
  {
    assert w.pending + seq(8 - |w.pending|, i => 0) == bs;
  }

  /** Two codes of three bits share a byte: the first one on top, two zeros at the end. */
  lemma TwoCodes(x: u8, y: u8, a: bit, b: bit, c: bit, d: bit, e: bit, f: bit)
    requires x == 4 * a + 2 * b + c && y == 4 * d + 2 * e + f
    ensures BitGroup([Bits(x, 3), Bits(y, 3)]) == [32 * x + 4 * y]
  {
    TwoCodesPut(x, y, a, b, c, d, e, f);
    FlushedByte(Writer([], [a, b, c, d, e, f]), [a, b, c, d, e, f, 0, 0]);
    EightBits(a, b, c, d, e, f, 0, 0);
  }

  lemma TwoCodesPut(x: u8, y: u8, a: bit, b: bit, c: bit, d: bit, e: bit, f: bit)
    requires x == 4 * a + 2 * b + c && y == 4 * d + 2 * e + f
    ensures PutAll(EMPTY_WRITER, [Bits(x, 3), Bits(y, 3)]) == Writer([], [a, b, c, d, e, f])
  {
    ThreePut(EMPTY_WRITER, a, b, c);
    assert [] + [a, b, c] == [a, b, c];
    ThreePut(Writer([], [a, b, c]), d, e, f);
    assert [a, b, c] + [d, e, f] == [a, b, c, d, e, f];
    TwoPut(EMPTY_WRITER, Bits(x, 3), Bits(y, 3));
  }

  /** A code of three bits alone fills the top of its byte. */
  lemma OneCode(x: u8, a: bit, b: bit, c: bit)
    requires x == 4 * a + 2 * b + c
    ensures BitGroup([Bits(x, 3)]) == [32 * x]
  {
    var w := Writer([], [a, b, c]);
    ThreePut(EMPTY_WRITER, a, b, c);
    assert Put(EMPTY_WRITER, Bits(x, 3)) == w by { assert [] + [a, b, c] == [a, b, c]; }
    FieldPut(EMPTY_WRITER, Bits(x, 3), []);
    assert [Bits(x, 3)] + [] == [Bits(x, 3)];
    FlushedByte(w, [a, b, c, 0, 0, 0, 0, 0]);
    EightBits(a, b, c, 0, 0, 0, 0, 0);
  }

  /** Symbols that are all alike take seven bytes: no table, the symbol, and how many there are. */
  lemma AllAlikeOnTheWire(sym: u8, n: nat)
    requires 0 < n <= MAX_SYMBOLS
    ensures ResidualBytes(seq(n, _ => sym)) == [0, 0, sym] + Be32(n)
  {
    var syms: seq<u8> := seq(n, _ => sym);
    assert AllAlike(syms) && syms[0] == sym;
  }

  /** Two symbols with frequencies. */
  ghost predicate TwoOnly(freqs: seq<nat>)
  {
    && |freqs| == 256 && freqs[0] == 4000 && freqs[255] == 96
    && forall v :: 0 < v < 255 ==> freqs[v] == 0
  }

  lemma {:induction false} LastEntry(freqs: seq<nat>, i: nat)
    requires TwoOnly(freqs) && 1 <= i <= 255
    ensures EntryBytes(freqs, i) == [255, 0, 96] && NonZeroFrom(freqs, i) == 1
    decreases 255 - i
  {
    if i == 255 {
      assert EntryBytes(freqs, 256) == [] && NonZeroFrom(freqs, 256) == 0;
    } else {
      LastEntry(freqs, i + 1);
    }
  }

  /** A section with a table: how many entries, each a symbol and its frequency, the size of the payload,
      the number of symbols, the payload. */
  lemma TableOnTheWire(freqs: seq<nat>, data: seq<u8>)
    requires TwoOnly(freqs) && |data| == 20
    ensures TableSection(freqs, data, 300)
         == [0, 2] + ([0, 15, 160, 255, 0, 96] + ([0, 0, 0, 20] + ([0, 0, 1, 44] + data)))
  {
    LastEntry(freqs, 1);
    assert EntryBytes(freqs, 0) == [0, 15, 160] + [255, 0, 96];
  }

  /** Values are one symbol each while all of them fit a signed byte. */
  lemma NarrowValues(v: i16, more: i16)
    requires -128 <= v <= 127 && -128 <= more <= 127
    ensures SymbolsOf([v, more]) == [v % 256, more % 256]
  {
    var vals := [v as int, more];
    assert vals[0] == v && vals[1] == more;
  }

  /** As soon as one does not, each is two symbols, low byte first. */
  lemma WideValues(v: i16, more: i16, s: seq<u8>)
    requires !(-128 <= v <= 127) && s == SymbolsOf([v, more])
    ensures |s| == 4 && Number(0, 0, s[1], s[0]) == v % 0x1_0000 && Number(0, 0, s[3], s[2]) == more % 0x1_0000
  {
    var vals := [v as int, more];
    assert vals[0] == v && vals[1] == more;
    WideAt(vals, 0);
    WideAt(vals, 1);
  }

  /** Four states, the first one first, in front of the bytes pushed out. */
  lemma StatesOnTheWire()
    ensures StateBytes([0x0102_0304, 0x80_0000]) == [1, 2, 3, 4, 0, 0x80, 0, 0]
  {
  }

  /** A tile is cut into the largest of the blocks 16, 8 and 4 whose side divides both of its sides. */
  lemma BlockSizeMeans(w: nat, h: nat, n: nat)
    requires n == BlockSize(w, h)
    ensures n == 16 || n == 8 || n == 4
    ensures n > 4 ==> w % n == 0 && h % n == 0
    ensures forall k :: (k == 16 || k == 8) && w % k == 0 && h % k == 0 ==> k <= n
  {
  }

  /** One COPY tile: the code, its vector, and no payload. */
  lemma CopyOnTheWire(hdr: Header)
    ensures PacketBytes(hdr, [1], [(0, -3)], []) == HeaderBytes(hdr) + [0x20, 0, 0xFF, 0xFD, 0, 0]
  {
    OneCode(1, 0, 0, 1);
    assert CodeFields([1]) == [Bits(1, 3)];
    assert MotionBytes([1], [(0, -3)], 1) == [];
  }

  lemma NoVectors()
    ensures MotionBytes([2, 4], [(0, 0), (0, 0)], 0) == []
  {
  }

  lemma TwoSections(a: seq<u8>, b: seq<u8>)
    requires |a| == 300 && |b| == 2
    ensures SizeBytes([a, b]) == [0, 0, 1, 44, 0, 0, 0, 2] && Concat([a, b]) == a + b
  {
    var sections := [a, b];
    assert sections[1..] == [b] && sections[..1] == [a];
    assert SizeBytes([b]) == [0, 0, 0, 2];
    assert Concat([a]) == a;
  }

  /** A LOSSLESS and a LOSSY tile: the codes, the number of payloads, their sizes, then they themselves. */
  lemma PayloadsOnTheWire(hdr: Header, a: seq<u8>, b: seq<u8>, sections: seq<seq<u8>>)
    requires |a| == 300 && |b| == 2 && sections == [a, b]
    ensures PacketBytes(hdr, [2, 4], [(0, 0), (0, 0)], sections)
         == HeaderBytes(hdr) + ([0x50] + ([] + ([0, 2] + ([0, 0, 1, 44, 0, 0, 0, 2] + (a + b)))))
  {
    TwoCodes(2, 4, 0, 1, 0, 1, 0, 0);
    assert CodeFields([2, 4]) == [Bits(2, 3), Bits(4, 3)];
    NoVectors();
    TwoSections(a, b);
    assert Be16(ToU16(|sections|)) == [0, 2];
  }

  // ---- Codes and flags ----

  lemma CodesAre()
    ensures Codes([SKIP, COPY, LOSSLESS, NEAR_LOSSLESS, LOSSY]) == [0, 1, 2, 3, 4]
    ensures ModeFields(Three(DC, HORIZONTAL, VERTICAL)) == [Bits(0, 3), Bits(1, 3), Bits(2, 3)]
    ensures ModeFields(Three(PLANAR, LEFT_PIXEL, DC)) == [Bits(3, 3), Bits(4, 3), Bits(0, 3)]
  {
  }

  /** Bit 3 of the flags announces a frequency table for the whole packet. */
  lemma FlagsMean(h: Header)
    ensures h.HasSharedTable() <==> h.flags % 16 >= 8
  {
  }

  /** Tiles are numbered row by row; those at the right and lower edge are smaller. */
  lemma TileOrder(g: Grid)
    requires g == Grid(130, 100, 64)
    ensures g.NumTiles() == 6
    ensures TileBox(g, 0) == Box(0, 0, 64, 64) && TileBox(g, 1) == Box(64, 0, 64, 64)
    ensures TileBox(g, 2) == Box(128, 0, 2, 64) && TileBox(g, 3) == Box(0, 64, 64, 36)
    ensures TileBox(g, 5) == Box(128, 64, 2, 36)
  {
    assert g.TilesX() == 3 && g.TilesY() == 2;
  }

  // ---- Tiles ----

  /** A tile of one pixel: its components in the order Y, Co, Cg, in any modes. */
  lemma OnePixel(p: Pixel, m: Three<PredMode>)
    requires m.y in {DC, LEFT_PIXEL} && m.co in {DC, LEFT_PIXEL} && m.cg in {DC, LEFT_PIXEL}
    ensures TileResiduals(ALONE, m, 1, 1, [p]) == [Forward(p).y, Forward(p).co, Forward(p).cg]
  {
    OneSample(m.y, Plane([p], Y));
    OneSample(m.co, Plane([p], CO));
    OneSample(m.cg, Plane([p], CG));
  }

  lemma OneSample(m: PredMode, src: seq<i16>)
    requires m in {DC, LEFT_PIXEL} && |src| == 1
    ensures Residual(m, NO_NEIGHBOURS, 1, 1, src) == src
  {
    if m == DC {
      SelectModeAlone(1, 1, src);
    }
  }

  /** A code of three bits on top of two free places fills the byte and leaves its last bit. */
  lemma ThirdPut(w: Writer, g: bit, h: bit, i: bit)
    requires |w.pending| == 6
    ensures PutBits(w, 4 * g + 2 * h + i, 3) == Writer(w.buf + [FromBits(w.pending + [g, h])], [i])
  {
    ThreeBitCode(g, h, i);
    var w1 := PutBit(w, g);
    var w2 := PutBit(w1, h);
    PutStep(w, g, [h, i]);
    PutStep(w1, h, [i]);
    PutStep(w2, i, []);
    assert [g] + [h, i] == [g, h, i] && [h] + [i] == [h, i] && [i] + [] == [i];
    assert w.pending + [g] + [h] == w.pending + [g, h] && [] + [i] == [i];
  }

  lemma ThreeFieldsPut(w: Writer, f: Field, g: Field, h: Field, more: seq<Field>)
    ensures PutAll(w, [f, g, h] + more) == PutAll(Put(Put(Put(w, f), g), h), more)
  {
    FieldPut(w, f, [g, h] + more);
    FieldPut(Put(w, f), g, [h] + more);
    FieldPut(Put(Put(w, f), g), h, more);
    assert [f] + ([g, h] + more) == [f, g, h] + more && [g] + ([h] + more) == [g, h] + more;
  }

  /** The modes 4, 0 and 0, as bits. */
  lemma TwoModesPut(f: Field, g: Field)
    requires f == Bits(4, 3) && g == Bits(0, 3)
    ensures Put(Put(EMPTY_WRITER, f), g) == Writer([], [1, 0, 0, 0, 0, 0])
  {
    ThreePut(EMPTY_WRITER, 1, 0, 0);
    assert [] + [1, 0, 0] == [1, 0, 0] && [1, 0, 0] + [0, 0, 0] == [1, 0, 0, 0, 0, 0];
    ThreePut(Writer([], [1, 0, 0]), 0, 0, 0);
  }

  lemma ThirdModePut(w: Writer, h: Field)
    requires w == Writer([], [1, 0, 0, 0, 0, 0]) && h == Bits(0, 3)
    ensures Put(w, h) == Writer([0x80], [0])
  {
    ThirdPut(w, 0, 0, 0);
    EightBits(1, 0, 0, 0, 0, 0, 0, 0);
    assert w.pending + [0, 0] == [1, 0, 0, 0, 0, 0, 0, 0] && [] + [0x80] == [0x80];
  }

  /** The writer behind them. */
  lemma ModesPut(more: seq<Field>)
    ensures PutAll(EMPTY_WRITER, ModeFields(Three(LEFT_PIXEL, DC, DC)) + more) == PutAll(Writer([0x80], [0]), more)
  {
    var f, g, h := Bits(4, 3), Bits(0, 3), Bits(0, 3);
    TwoModesPut(f, g);
    ThirdModePut(Put(Put(EMPTY_WRITER, f), g), h);
    ThreeFieldsPut(EMPTY_WRITER, f, g, h, more);
    assert ModeFields(Three(LEFT_PIXEL, DC, DC)) == [f, g, h];
  }

  lemma OneBit(w: Writer, b: bit)
    requires |w.pending| < 7
    ensures PutAll(w, [Bits(b, 1)]) == Writer(w.buf, w.pending + [b])
  {
    assert LowBits(b, 1) == [b];
    PutStep(w, b, []);
    FieldPut(w, Bits(b, 1), []);
    assert [b] + [] == [b] && [Bits(b, 1)] + [] == [Bits(b, 1)];
  }

  lemma FlushedLast(w: Writer, a: bit, b: bit)
    requires w.pending == [a] || w.pending == [a, b]
    ensures w.pending == [a] ==> Flush(w).buf == w.buf + [128 * a]
    ensures w.pending == [a, b] ==> Flush(w).buf == w.buf + [128 * a + 64 * b]
  {
    if w.pending == [a] {
      assert w.pending + seq(7, i => 0) == [a, 0, 0, 0, 0, 0, 0, 0];
      EightBits(a, 0, 0, 0, 0, 0, 0, 0);
    } else {
      assert w.pending + seq(6, i => 0) == [a, b, 0, 0, 0, 0, 0, 0];
      EightBits(a, b, 0, 0, 0, 0, 0, 0);
    }
  }

  /** Alone, and with a width flag of 1 behind them. */
  lemma ModeGroups(modes: seq<Field>, flag: Field)
    requires modes == ModeFields(Three(LEFT_PIXEL, DC, DC)) && flag == Bits(1, 1)
    ensures BitGroup(modes + [flag]) == [0x80, 0x40]
    ensures BitGroup(modes) == [0x80, 0]
    ensures BitGroup([flag]) == [0x80]
  {
    ModesPut([flag]);
    FlagPut(Writer([0x80], [0]), flag);
    ModesPut([]);
    assert modes + [] == modes;
    NothingPut(Writer([0x80], [0]));
    FlagAlone(flag);
  }

  lemma FlagPut(w: Writer, flag: Field)
    requires w == Writer([0x80], [0]) && flag == Bits(1, 1)
    ensures Flush(PutAll(w, [flag])).buf == [0x80, 0x40]
  {
    OneBit(w, 1);
    assert w.pending + [1] == [0, 1];
    FlushedLast(Writer([0x80], [0, 1]), 0, 1);
    assert [0x80] + [0x40] == [0x80, 0x40];
  }

  lemma NothingPut(w: Writer)
    requires w == Writer([0x80], [0])
    ensures Flush(PutAll(w, [])).buf == [0x80, 0]
  {
    FlushedLast(w, 0, 0);
    assert [0x80] + [0] == [0x80, 0];
  }

  lemma FlagAlone(flag: Field)
    requires flag == Bits(1, 1)
    ensures BitGroup([flag]) == [0x80]
  {
    OneBit(EMPTY_WRITER, 1);
    assert [] + [1] == [1];
    FlushedLast(Writer([], [1]), 1, 0);
    assert [] + [0x80] == [0x80];
  }

  lemma BlackResiduals(a: u8, vals: seq<int>)
    requires |vals| == 3 && forall i :: 0 <= i < 3 ==> vals[i] == 0
    ensures TileResiduals(ALONE, Three(LEFT_PIXEL, DC, DC), 1, 1, [Pixel(0, 0, 0, a)]) == vals
  {
    OnePixel(Pixel(0, 0, 0, a), Three(LEFT_PIXEL, DC, DC));
  }

  lemma ZeroSymbols(vals: seq<int>)
    requires |vals| == 3 && forall i :: 0 <= i < 3 ==> vals[i] == 0
    ensures SingleByte(vals) && SymbolsOf(vals) == seq(3, _ => 0) && Quantised(vals, 2) == vals
    ensures ResidualBytes(SymbolsOf(vals)) == [0, 0, 0, 0, 0, 0, 3]
  {
    AllAlikeOnTheWire(0, 3);
  }

  /** A black pixel, LOSSLESS with the modes 4, 0 and 0: ten bits of modes and width flag, then its section. */
  lemma LosslessOnTheWire(a: u8, vals: seq<int>)
    requires vals == [0, 0, 0]
    ensures LosslessBytes(ALONE, Three(LEFT_PIXEL, DC, DC), 1, 1, [Pixel(0, 0, 0, a)])
         == [0x80, 0x40] + [0, 0, 0, 0, 0, 0, 3]
  {
    BlackResiduals(a, vals);
    ZeroSymbols(vals);
    ModeGroups(ModeFields(Three(LEFT_PIXEL, DC, DC)), FlagField(true));
  }

  /** The same NEAR_LOSSLESS with step 2: modes, step, width flag, section. */
  lemma NearLosslessOnTheWire(a: u8, vals: seq<int>)
    requires vals == [0, 0, 0]
    ensures NearLosslessBytes(ALONE, Three(LEFT_PIXEL, DC, DC), 1, 1, [Pixel(0, 0, 0, a)], 2)
         == [0x80, 0] + ([2] + ([0x80] + [0, 0, 0, 0, 0, 0, 3]))
  {
    BlackResiduals(a, vals);
    ZeroSymbols(vals);
    ModeGroups(ModeFields(Three(LEFT_PIXEL, DC, DC)), FlagField(true));
  }

  lemma TwoBitCode(a: bit, b: bit)
    ensures BitGroup([Bits(2 * a + b, 2)]) == [128 * a + 64 * b]
  {
    var x: nat := 2 * a + b;
    assert Shr(x, 1) == a && LowBits(x, 1) == [b] && LowBits(x, 2) == [a, b];
    PutStep(EMPTY_WRITER, a, [b]);
    PutStep(Writer([], [a]), b, []);
    assert [a] + [b] == [a, b] && [b] + [] == [b] && [] + [a] == [a];
    FieldPut(EMPTY_WRITER, Bits(x, 2), []);
    assert [Bits(x, 2)] + [] == [Bits(x, 2)];
    FlushedLast(Writer([], [a, b]), a, b);
  }

  lemma SizeCodes(code: u8)
    requires code < 3
    ensures BitGroup([Bits(code, 2)]) == [64 * code]
  {
    TwoBitCode(if code == 2 then 1 else 0, if code == 1 then 1 else 0);
  }

  /** A LOSSY tile starts with its block size, 0 for 4, 1 for 8 and 2 for 16, on top of a byte, then its
      parameter. */
  lemma LossyStart(t: CosTables, w: nat, h: nat, tile: seq<Pixel>, qp: u8, s: seq<u8>)
    requires |tile| == w * h && FitsSection(w * h) && s == LossyBytes(t, w, h, tile, qp)
    ensures |s| >= 2 && s[1] == qp
    ensures s[0] == if w % 16 == 0 && h % 16 == 0 then 0x80 else if w % 8 == 0 && h % 8 == 0 then 0x40 else 0
  {
    SizeCodes(BlockCode(BlockSize(w, h)));
  }
}
