/** The residual section of a tile: frequency table, sizes and rANS payload, or the short
    form for a tile whose symbols are all alike.  src/codec/omni/tile_encoder.cpp:127-186,
    src/codec/omni/tile_decoder.cpp:60-118. */
module Residuals {
  import opened Words
  import opened Bitstream
  import opened FrequencyTable
  import opened Rans

  /** The most symbols a section may carry so that its sizes fit 32 bits; a tile of the
      largest size the header can name (255 x 255) has fewer. */
  const MAX_SYMBOLS: nat := 0x100_0000

  // ---- Symbol counts ----

  function Count(syms: seq<u8>, v: nat): nat
  {
    if syms == [] then 0
    else Count(syms[..|syms| - 1], v) + (if syms[|syms| - 1] == v then 1 else 0)
  }

  function Histogram(syms: seq<u8>): (h: seq<nat>)
    ensures |h| == 256
  {
    seq(256, v requires 0 <= v < 256 => Count(syms, v))
  }

  lemma {:induction false} CountPositive(syms: seq<u8>, v: nat)
    ensures Count(syms, v) > 0 <==> v in syms
    ensures Count(syms, v) <= |syms|
  {
    if syms != [] {
      CountPositive(syms[..|syms| - 1], v);
      assert syms == syms[..|syms| - 1] + [syms[|syms| - 1]];
    }
  }

  /** The counts of all 256 symbols add up to the length. */
  lemma {:induction false} SumHistogram(syms: seq<u8>)
    ensures Sum(Histogram(syms)) == |syms|
  {
    if syms == [] {
      SumAtMost(Histogram(syms), 0);
    } else {
      var front, v := syms[..|syms| - 1], syms[|syms| - 1];
      SumHistogram(front);
      SumUpdate(Histogram(front), v, Histogram(front)[v] + 1);
      assert Histogram(syms) == Histogram(front)[v := Histogram(front)[v] + 1];
    }
  }

  ghost predicate AllAlike(syms: seq<u8>)
  {
    forall i :: 0 <= i < |syms| ==> syms[i] == syms[0]
  }

  // ---- Layout ----

  /** The (symbol, frequency) pairs of the symbols from i on that have a frequency. */
  function EntryBytes(freqs: seq<nat>, i: nat): seq<u8>
    requires |freqs| == 256 && i <= 256
    decreases 256 - i
  {
    if i == 256 then []
    else (if freqs[i] > 0 then [i] + Be16(ToU16(freqs[i])) else []) + EntryBytes(freqs, i + 1)
  }

  function NonZeroFrom(freqs: seq<nat>, i: nat): (n: nat)
    requires |freqs| == 256 && i <= 256
    ensures n <= 256 - i
    decreases 256 - i
  {
    if i == 256 then 0 else (if freqs[i] > 0 then 1 else 0) + NonZeroFrom(freqs, i + 1)
  }

  function TableOf(syms: seq<u8>): (t: seq<RansSymbol>)
    ensures ValidTable(t)
  {
    MadeTableValid(Histogram(syms));
    FrequencyTableOf(Histogram(syms))
  }

  ghost function TableSection(freqs: seq<nat>, data: seq<u8>, total: u32): seq<u8>
    requires |freqs| == 256 && |data| < 0x1_0000_0000
  {
    Be16(NonZeroFrom(freqs, 0)) + (EntryBytes(freqs, 0) + (Be32(|data|) + (Be32(total) + data)))
  }

  ghost function UniformSection(sym: u8, total: u32): seq<u8>
  {
    Be16(0) + ([sym] + Be32(total))
  }

  lemma EncodedFits(syms: seq<u8>, table: seq<RansSymbol>)
    requires ValidTable(table) && |syms| <= MAX_SYMBOLS
    ensures |Encoded(4, syms, table)| < 0x1_0000_0000
  {
    EncodeInRange(4, syms, table, 0);
  }

  /** What encodeResiduals writes, starting from a byte boundary. */
  ghost function ResidualBytes(syms: seq<u8>): seq<u8>
    requires |syms| <= MAX_SYMBOLS
  {
    if AllAlike(syms) then UniformSection(if syms == [] then 0 else syms[0], |syms|)
    else
      EncodedFits(syms, TableOf(syms));
      TableSection(Freqs(TableOf(syms)), Encoded(4, syms, TableOf(syms)), |syms|)
  }

  // ---- Reading ----

  function ReadEntries(r: Reader, n: nat, freqs: seq<nat>): (res: Outcome<(seq<nat>, Reader)>)
    requires |freqs| == 256
    ensures res.Done? ==> |res.value.0| == 256
    decreases n
  {
    if n == 0 then Done((freqs, r))
    else
      var (sym, r1) := GetU8(r);
      var (f, r2) := GetU16(r1);
      if r2.error then Rejected else ReadEntries(r2, n - 1, freqs[sym := f])
  }

  function ReadUniform(r: Reader, total: nat): (res: Outcome<(seq<u8>, Reader)>)
    ensures res.Done? ==> |res.value.0| == total
  {
    var (sym, r1) := GetU8(r);
    var (n, r2) := GetU32(r1);
    if r2.error || n != total then Rejected else Done((seq(total, i => sym), r2))
  }

  function ReadPayload(r: Reader, freqs: seq<nat>, total: nat): (res: Outcome<(seq<u8>, Reader)>)
    requires |freqs| == 256 && Sum(freqs) <= 4096
    ensures res.Done? ==> |res.value.0| == total
  {
    var (size, r1) := GetU32(r);
    var (n, r2) := GetU32(r1);
    if r2.error || n != total then Rejected
    else
      var (data, r3) := GetBytes(r2, size);
      if data == None then Rejected
      else
        var syms :- Decoded(4, data.value, DecodeTableOf(freqs), total);
        Done((syms, r3))
  }

  /** The frequency table of a whole packet, when it has one. */
  predicate ValidShared(shared: Option<seq<nat>>)
  {
    shared.Some? ==> |shared.value| == 256 && Sum(shared.value) <= 4096
  }

  /** n entries of a table.  Frequencies summing past 4096 make the decode table overflow. */
  function ReadFrequencies(r: Reader, n: nat): (res: Outcome<(seq<nat>, Reader)>)
    ensures res.Done? ==> ValidShared(Some(res.value.0))
  {
    var (freqs, r1) :- ReadEntries(r, n, seq(256, i => 0));
    if Sum(freqs) > 4096 then Unspecified else Done((freqs, r1))
  }

  /** The table of a packet whose header says there is one. */
  function ReadShared(r: Reader, present: bool): (res: Outcome<(Option<seq<nat>>, Reader)>)
    ensures res.Done? ==> ValidShared(res.value.0)
  {
    if !present then Done((None, r))
    else
      var (n, r1) := GetU16(r);
      if r1.error then Rejected
      else
        var (freqs, r2) :- ReadFrequencies(r1, n);
        Done((Some(freqs), r2))
  }

  /** A section with a table of its own in front, or of one repeated symbol. */
  function ReadWithTable(r: Reader, total: nat): (res: Outcome<(seq<u8>, Reader)>)
    ensures res.Done? ==> |res.value.0| == total
  {
    var (n, r1) := GetU16(r);
    if r1.error then Rejected
    else if n == 0 then ReadUniform(r1, total)
    else
      var (freqs, r2) :- ReadFrequencies(r1, n);
      ReadPayload(r2, freqs, total)
  }

  /** decodeResiduals: the packet's table makes a table of the section's own unnecessary. */
  function ReadResiduals(r: Reader, shared: Option<seq<nat>>, total: nat): (res: Outcome<(seq<u8>, Reader)>)
    requires ValidShared(shared)
    ensures res.Done? ==> |res.value.0| == total
  {
    if shared.Some? then ReadPayload(r, shared.value, total) else ReadWithTable(r, total)
  }

  // ---- Round trip ----

  /** The frequencies read so far, with zeros for the symbols not reached. */
  ghost function Partial(freqs: seq<nat>, i: nat): (acc: seq<nat>)
    requires |freqs| == 256 && i <= 256
    ensures |acc| == 256
  {
    freqs[..i] + seq(256 - i, k => 0)
  }

  lemma EntryRead(r: Reader, sym: u8, f: u16, n: nat, more: seq<u8>, acc: seq<nat>)
    requires |acc| == 256 && Has(r, [sym] + (Be16(f) + more))
    ensures Has(Skip(r, 3), more)
    ensures ReadEntries(r, n + 1, acc) == ReadEntries(Skip(r, 3), n, acc[sym := f])
  {
    HasSplit(r, [sym], Be16(f) + more);
    HasSplit(Skip(r, 1), Be16(f), more);
    U8Read(r, sym);
    U16Read(Skip(r, 1), f);
  }

  lemma PartialStep(freqs: seq<nat>, i: nat)
    requires |freqs| == 256 && i < 256
    ensures Partial(freqs, i)[i := freqs[i]] == Partial(freqs, i + 1)
    ensures freqs[i] == 0 ==> Partial(freqs, i) == Partial(freqs, i + 1)
  {
    assert Partial(freqs, i)[i := 0] == Partial(freqs, i);
  }

  lemma EntryBytesStep(freqs: seq<nat>, i: nat)
    requires |freqs| == 256 && i < 256 && freqs[i] <= 4096
    ensures EntryBytes(freqs, i)
         == if freqs[i] > 0 then [i] + (Be16(freqs[i]) + EntryBytes(freqs, i + 1)) else EntryBytes(freqs, i + 1)
  {
    if freqs[i] > 0 {
      assert [i] + Be16(freqs[i]) + EntryBytes(freqs, i + 1) == [i] + (Be16(freqs[i]) + EntryBytes(freqs, i + 1));
    } else {
      assert [] + EntryBytes(freqs, i + 1) == EntryBytes(freqs, i + 1);
    }
  }

  /** Bytes taken by symbol i's entry. */
  function EntrySize(freqs: seq<nat>, i: nat): nat
    requires i < |freqs|
  {
    if freqs[i] > 0 then 3 else 0
  }

  lemma NoEntryStep(r: Reader, freqs: seq<nat>, i: nat, next: nat)
    requires |freqs| == 256 && i < 256 && next == i + 1 && freqs[i] == 0
    ensures EntryBytes(freqs, i) == EntryBytes(freqs, next)
    ensures ReadEntries(r, NonZeroFrom(freqs, i), Partial(freqs, i))
         == ReadEntries(r, NonZeroFrom(freqs, next), Partial(freqs, next))
  {
    PartialStep(freqs, i);
    EntryBytesStep(freqs, i);
  }

  lemma OneEntryStep(r: Reader, freqs: seq<nat>, i: nat, next: nat)
    requires |freqs| == 256 && i < 256 && next == i + 1 && 0 < freqs[i] <= 4096 && Has(r, EntryBytes(freqs, i))
    ensures |EntryBytes(freqs, i)| == 3 + |EntryBytes(freqs, next)| && Has(Skip(r, 3), EntryBytes(freqs, next))
    ensures ReadEntries(r, NonZeroFrom(freqs, i), Partial(freqs, i))
         == ReadEntries(Skip(r, 3), NonZeroFrom(freqs, next), Partial(freqs, next))
  {
    PartialStep(freqs, i);
    EntryBytesStep(freqs, i);
    EntryRead(r, i, freqs[i], NonZeroFrom(freqs, next), EntryBytes(freqs, next), Partial(freqs, i));
  }

  lemma EntryStep(r: Reader, freqs: seq<nat>, i: nat)
    requires |freqs| == 256 && i < 256 && freqs[i] <= 4096
    requires Has(r, EntryBytes(freqs, i))
    ensures var r1 := Skip(r, EntrySize(freqs, i));
      && Has(r1, EntryBytes(freqs, i + 1))
      && |EntryBytes(freqs, i)| == EntrySize(freqs, i) + |EntryBytes(freqs, i + 1)|
      && ReadEntries(r, NonZeroFrom(freqs, i), Partial(freqs, i))
           == ReadEntries(r1, NonZeroFrom(freqs, i + 1), Partial(freqs, i + 1))
  {
    if freqs[i] > 0 {
      OneEntryStep(r, freqs, i, i + 1);
    } else {
      NoEntryStep(r, freqs, i, i + 1);
    }
  }

  lemma {:induction false} EntriesRead(r: Reader, freqs: seq<nat>, i: nat, n: nat, acc: seq<nat>, size: nat)
    requires |freqs| == 256 && i <= 256 && forall k :: 0 <= k < 256 ==> freqs[k] <= 4096
    requires Has(r, EntryBytes(freqs, i))
    requires n == NonZeroFrom(freqs, i) && acc == Partial(freqs, i) && size == |EntryBytes(freqs, i)|
    ensures ReadEntries(r, n, acc) == Done((freqs, Skip(r, size)))
    decreases 256 - i
  {
    if i == 256 {
      assert Partial(freqs, i) == freqs;
    } else {
      var k := EntrySize(freqs, i);
      EntryStep(r, freqs, i);
      EntriesRead(Skip(r, k), freqs, i + 1, NonZeroFrom(freqs, i + 1), Partial(freqs, i + 1), size - k);
      assert Skip(Skip(r, k), size - k) == Skip(r, size);
    }
  }

  lemma UniformRead(r: Reader, sym: u8, total: u32)
    requires Has(r, UniformSection(sym, total))
    ensures ReadWithTable(r, total) == Done((seq(total, i => sym), Skip(r, |UniformSection(sym, total)|)))
  {
    HasSplit(r, Be16(0), [sym] + Be32(total));
    HasSplit(Skip(r, 2), [sym], Be32(total));
    U16Read(r, 0);
    U8Read(Skip(r, 2), sym);
    U32Read(Skip(Skip(r, 2), 1), total);
  }

  lemma PayloadRead(r: Reader, freqs: seq<nat>, syms: seq<u8>, data: seq<u8>)
    requires |freqs| == 256 && Sum(freqs) <= 4096
    requires |data| < 0x1_0000_0000 && |syms| < 0x1_0000_0000
    requires Decoded(4, data, DecodeTableOf(freqs), |syms|) == Done(syms)
    requires Has(r, Be32(|data|) + (Be32(|syms|) + data))
    ensures ReadPayload(r, freqs, |syms|) == Done((syms, Skip(r, 8 + |data|)))
  {
    HasSplit(r, Be32(|data|), Be32(|syms|) + data);
    HasSplit(Skip(r, 4), Be32(|syms|), data);
    U32Read(r, |data|);
    U32Read(Skip(r, 4), |syms|);
    BytesRead(Skip(Skip(r, 4), 4), data);
  }

  lemma FrequenciesRead(r: Reader, freqs: seq<nat>, n: nat, size: nat)
    requires |freqs| == 256 && Sum(freqs) <= 4096 && n == NonZeroFrom(freqs, 0)
    requires Has(r, EntryBytes(freqs, 0)) && size == |EntryBytes(freqs, 0)|
    ensures ReadFrequencies(r, n) == Done((freqs, Skip(r, size)))
  {
    PrefixesFit(freqs);
    assert Partial(freqs, 0) == seq(256, i => 0);
    EntriesRead(r, freqs, 0, n, Partial(freqs, 0), size);
  }

  lemma WithTableUnfold(r: Reader, n: nat, r1: Reader, freqs: seq<nat>, r2: Reader, total: nat)
    requires GetU16(r) == (n, r1) && !r1.error && n > 0 && ReadFrequencies(r1, n) == Done((freqs, r2))
    ensures ValidShared(Some(freqs)) && ReadWithTable(r, total) == ReadPayload(r2, freqs, total)
  {
  }

  lemma TableRead(r: Reader, freqs: seq<nat>, syms: seq<u8>, data: seq<u8>)
    requires |freqs| == 256 && Sum(freqs) <= 4096 && NonZeroFrom(freqs, 0) > 0
    requires |data| < 0x1_0000_0000 && |syms| < 0x1_0000_0000
    requires Decoded(4, data, DecodeTableOf(freqs), |syms|) == Done(syms)
    requires Has(r, TableSection(freqs, data, |syms|))
    ensures ReadWithTable(r, |syms|) == Done((syms, Skip(r, |TableSection(freqs, data, |syms|)|)))
  {
    var n, entries, payload := NonZeroFrom(freqs, 0), EntryBytes(freqs, 0), Be32(|data|) + (Be32(|syms|) + data);
    HasSplit(r, Be16(n), entries + payload);
    var r1 := Skip(r, 2);
    HasSplit(r1, entries, payload);
    U16Read(r, n);
    FrequenciesRead(r1, freqs, n, |entries|);
    PayloadRead(Skip(r1, |entries|), freqs, syms, data);
    WithTableUnfold(r, n, r1, freqs, Skip(r1, |entries|), |syms|);
  }

  /** A table whose frequencies sum to 4096 never has the length 0 that marks a uniform tile. */
  lemma {:induction false} NoEntriesNoSum(freqs: seq<nat>, i: nat)
    requires |freqs| == 256 && i <= 256 && NonZeroFrom(freqs, i) == 0
    ensures Sum(freqs[..i]) == Sum(freqs)
    decreases 256 - i
  {
    assert freqs[..256] == freqs;
    if i < 256 {
      NoEntriesNoSum(freqs, i + 1);
      SumStep(freqs, i);
    }
  }

  lemma TableCodesItsSymbols(syms: seq<u8>)
    requires syms != []
    ensures AllCoded(syms, TableOf(syms))
  {
    var h, t := Histogram(syms), TableOf(syms);
    SumHistogram(syms);
    FrequenciesNormalised(h);
    MadeTableValid(h);
    forall i | 0 <= i < |syms|
      ensures t[syms[i]].freq > 0
    {
      CountPositive(syms, syms[i]);
      assert Freqs(t)[syms[i]] == Frequencies(h)[syms[i]];
      assert h[syms[i]] > 0;
    }
  }

  lemma CodedRoundTrip(r: Reader, syms: seq<u8>, t: seq<RansSymbol>)
    requires syms != [] && |syms| <= MAX_SYMBOLS && t == TableOf(syms)
    requires |Encoded(4, syms, t)| < 0x1_0000_0000
    requires Has(r, TableSection(Freqs(t), Encoded(4, syms, t), |syms|))
    ensures ReadWithTable(r, |syms|)
         == Done((syms, Skip(r, |TableSection(Freqs(t), Encoded(4, syms, t), |syms|)|)))
  {
    TableCodesItsSymbols(syms);
    RansRoundTrip(4, syms, t);
    TableHasEntries(Freqs(t));
    TableRead(r, Freqs(t), syms, Encoded(4, syms, t));
  }

  /** Main result: for every symbol buffer, reading the section returns the buffer and stops
      exactly behind it. */
  lemma ResidualRoundTrip(r: Reader, syms: seq<u8>)
    requires |syms| <= MAX_SYMBOLS && Has(r, ResidualBytes(syms))
    ensures ReadResiduals(r, None, |syms|) == Done((syms, Skip(r, |ResidualBytes(syms)|)))
  {
    if AllAlike(syms) {
      var sym := if syms == [] then 0 else syms[0];
      UniformRead(r, sym, |syms|);
      assert seq(|syms|, i => sym) == syms;
    } else {
      EncodedFits(syms, TableOf(syms));
      CodedRoundTrip(r, syms, TableOf(syms));
    }
  }

  lemma UniformRefused(r: Reader, sym: u8, count: u32, total: nat)
    requires Has(r, UniformSection(sym, count)) && total != count
    ensures ReadWithTable(r, total) == Rejected
  {
    HasSplit(r, Be16(0), [sym] + Be32(count));
    HasSplit(Skip(r, 2), [sym], Be32(count));
    U16Read(r, 0);
    U8Read(Skip(r, 2), sym);
    U32Read(Skip(Skip(r, 2), 1), count);
  }

  lemma PayloadRefused(r: Reader, freqs: seq<nat>, count: u32, data: seq<u8>, total: nat)
    requires |freqs| == 256 && Sum(freqs) <= 4096 && |data| < 0x1_0000_0000 && total != count
    requires Has(r, Be32(|data|) + (Be32(count) + data))
    ensures ReadPayload(r, freqs, total) == Rejected
  {
    HasSplit(r, Be32(|data|), Be32(count) + data);
    HasSplit(Skip(r, 4), Be32(count), data);
    U32Read(r, |data|);
    U32Read(Skip(r, 4), count);
  }

  lemma TableRefused(r: Reader, freqs: seq<nat>, count: u32, data: seq<u8>, total: nat)
    requires |freqs| == 256 && Sum(freqs) <= 4096 && NonZeroFrom(freqs, 0) > 0 && |data| < 0x1_0000_0000
    requires Has(r, TableSection(freqs, data, count)) && total != count
    ensures ReadWithTable(r, total) == Rejected
  {
    var n, entries, payload := NonZeroFrom(freqs, 0), EntryBytes(freqs, 0), Be32(|data|) + (Be32(count) + data);
    HasSplit(r, Be16(n), entries + payload);
    var r1 := Skip(r, 2);
    HasSplit(r1, entries, payload);
    U16Read(r, n);
    FrequenciesRead(r1, freqs, n, |entries|);
    PayloadRefused(Skip(r1, |entries|), freqs, count, data, total);
    WithTableUnfold(r, n, r1, freqs, Skip(r1, |entries|), total);
  }

  /** A section is refused where another number of symbols is expected. */
  lemma WrongCountRefused(r: Reader, syms: seq<u8>, total: nat)
    requires |syms| <= MAX_SYMBOLS && Has(r, ResidualBytes(syms)) && total != |syms|
    ensures ReadResiduals(r, None, total) == Rejected
  {
    if AllAlike(syms) {
      UniformRefused(r, if syms == [] then 0 else syms[0], |syms|, total);
    } else {
      EncodedFits(syms, TableOf(syms));
      TableHasEntries(Freqs(TableOf(syms)));
      TableRefused(r, Freqs(TableOf(syms)), |syms|, Encoded(4, syms, TableOf(syms)), total);
    }
  }

  /** What encodeResidualsShared writes against a table that travels with the packet. */
  ghost function SharedBytes(syms: seq<u8>, table: seq<RansSymbol>): seq<u8>
    requires ValidTable(table) && |syms| <= MAX_SYMBOLS
  {
    EncodedFits(syms, table);
    Be32(|Encoded(4, syms, table)|) + (Be32(|syms|) + Encoded(4, syms, table))
  }

  /** It reads back whenever the shared table has every symbol of the buffer. */
  lemma SharedRoundTrip(r: Reader, syms: seq<u8>, table: seq<RansSymbol>)
    requires syms != [] && |syms| <= MAX_SYMBOLS && ValidTable(table) && AllCoded(syms, table)
    requires Has(r, SharedBytes(syms, table))
    ensures |Freqs(table)| == 256 && Sum(Freqs(table)) <= 4096
    ensures ReadResiduals(r, Some(Freqs(table)), |syms|) == Done((syms, Skip(r, |SharedBytes(syms, table)|)))
  {
    EncodedFits(syms, table);
    RansRoundTrip(4, syms, table);
    PayloadRead(r, Freqs(table), syms, Encoded(4, syms, table));
  }

  lemma TableHasEntries(freqs: seq<nat>)
    requires |freqs| == 256 && Sum(freqs) == 4096
    ensures NonZeroFrom(freqs, 0) > 0
  {
    if NonZeroFrom(freqs, 0) == 0 {
      NoEntriesNoSum(freqs, 0);
    }
  }

  // ---- The decode table covers every slot ----

  lemma {:induction false} SlotHasOwner(freqs: seq<nat>, slot: nat, n: nat) returns (sym: nat)
    requires n <= |freqs| && slot < Sum(freqs[..n])
    ensures sym < n && Sum(freqs[..sym]) <= slot < Sum(freqs[..sym]) + freqs[sym]
  {
    SumStep(freqs, n - 1);
    if slot >= Sum(freqs[..n - 1]) {
      sym := n - 1;
    } else {
      sym := SlotHasOwner(freqs, slot, n - 1);
    }
  }

  /** Every one of the 4096 slots maps to the one symbol whose interval holds it. */
  lemma EverySlotDecodes(freqs: seq<nat>, slot: nat)
    requires |freqs| == 256 && Sum(freqs) == 4096 && slot < 4096
    ensures var e := DecodeTableOf(freqs)[slot];
      && e.symbol < 256 && e.freq == freqs[e.symbol] > 0
      && e.cumFreq == Sum(freqs[..e.symbol]) <= slot < e.cumFreq + e.freq
    ensures forall v | 0 <= v < 256 && Sum(freqs[..v]) <= slot < Sum(freqs[..v]) + freqs[v]
              :: v == DecodeTableOf(freqs)[slot].symbol
  {
    assert freqs[..256] == freqs;
    var sym := SlotHasOwner(freqs, slot, 256);
    SymbolAtFinds(freqs, slot, 0, sym);
    forall v | 0 <= v < 256 && Sum(freqs[..v]) <= slot < Sum(freqs[..v]) + freqs[v]
      ensures v == sym
    {
      SymbolAtFinds(freqs, slot, 0, v);
    }
  }
}
