/** The 16-byte frame header, src/codec/omni/omni_types.h:51-93, and the helpers it shares
    with the control channel, src/core/types.h:19-39. */
module FrameHeader {
  import opened Words

  const OMNI_MAGIC: u32 := 0x4F43_4F44

  datatype Header = Header(magic: u32, frameId: u32, width: u16, height: u16, flags: u8, tileSize: u8,
                           tilesX: u16, tilesY: u16)
  {
    predicate HasSharedTable() { flags / 8 % 2 == 1 }
  }

  function KeyFlags(key: bool): u8 { if key then 1 else 0 }

  /** Both tile counts share the last 16 bits: (tilesX << 8) | (tilesY & 0xFF), truncated. */
  function PackedCounts(h: Header): u16 { ToU16(h.tilesX * 0x100 + h.tilesY % 0x100) }

  function HeaderBytes(h: Header): (s: seq<u8>)
    ensures |s| == 16
  {
    Be32(h.magic) + Be32(h.frameId) + Be16(h.width) + Be16(h.height) + [h.flags, h.tileSize] + Be16(PackedCounts(h))
  }

  function HeaderOf(s: seq<u8>): Header
    requires |s| == 16
  {
    Header(FromBe32(s[0], s[1], s[2], s[3]), FromBe32(s[4], s[5], s[6], s[7]), FromBe16(s[8], s[9]),
           FromBe16(s[10], s[11]), s[12], s[13],
           FromBe16(s[14], s[15]) / 0x100 % 0x100, FromBe16(s[14], s[15]) % 0x100)
  }

  lemma PackedCountsBack(h: Header)
    ensures PackedCounts(h) / 0x100 % 0x100 == h.tilesX % 0x100
    ensures PackedCounts(h) % 0x100 == h.tilesY % 0x100
  {
    var lo, hi := h.tilesY % 0x100, h.tilesX % 0x100;
    assert h.tilesX * 0x100 + lo == (h.tilesX / 0x100) * 0x1_0000 + (hi * 0x100 + lo);
    assert PackedCounts(h) == hi * 0x100 + lo;
  }

  lemma HeaderSlices(h: Header, s: seq<u8>)
    requires s == HeaderBytes(h)
    ensures s[0..4] == Be32(h.magic) && s[4..8] == Be32(h.frameId) && s[8..10] == Be16(h.width)
    ensures s[10..12] == Be16(h.height) && s[12] == h.flags && s[13] == h.tileSize && s[14..16] == Be16(PackedCounts(h))
  {
  }

  /** The header survives exactly when both tile counts fit one byte. */
  lemma HeaderRoundTrip(h: Header)
    ensures HeaderOf(HeaderBytes(h)) == h <==> h.tilesX < 0x100 && h.tilesY < 0x100
    ensures HeaderOf(HeaderBytes(h)) == h.(tilesX := h.tilesX % 0x100, tilesY := h.tilesY % 0x100)
  {
    HeaderWords(h, HeaderBytes(h));
    PackedCountsBack(h);
  }

  lemma HeaderWords(h: Header, s: seq<u8>)
    requires s == HeaderBytes(h)
    ensures FromBe32(s[0], s[1], s[2], s[3]) == h.magic && FromBe32(s[4], s[5], s[6], s[7]) == h.frameId
    ensures FromBe16(s[8], s[9]) == h.width && FromBe16(s[10], s[11]) == h.height && s[12] == h.flags
    ensures s[13] == h.tileSize
    ensures FromBe16(s[14], s[15]) == PackedCounts(h)
  {
    HeaderSlices(h, s);
    WordAt(s, 0, h.magic);
    WordAt(s, 4, h.frameId);
    HalfWordAt(s, 8, h.width);
    HalfWordAt(s, 10, h.height);
    HalfWordAt(s, 14, PackedCounts(h));
  }
}
