/** The range ANS coder, src/codec/omni/rans_codec.cpp:105-317.  The functions describe the
    coder over any number of interleaved states; `encode`/`decode` are the one-state case
    and `encodeInterleaved`/`decodeInterleaved` the four-state case. */
module Rans {
  import opened Words
  import opened Arithmetic
  import opened FrequencyTable

  // RANS_L, the lower bound of the state, is 0x80_0000 throughout.

  // ---- Encoding one symbol ----

  /** The bytes shifted out before a symbol of frequency f is coded, first one first. */
  function Pushed(x: nat, f: nat): seq<u8>
    requires f > 0
  {
    if x >= 0x8_0000 * f then [x % 0x100] + Pushed(x / 0x100, f) else []
  }

  /** The state left after those bytes. */
  function Renormalised(x: nat, f: nat): nat
    requires f > 0
  {
    if x >= 0x8_0000 * f then Renormalised(x / 0x100, f) else x
  }

  /** The textbook rANS step. */
  function Coded(x: nat, f: nat, cum: nat): nat
    requires f > 0
  {
    x / f * 4096 + x % f + cum
  }

  function Step(x: nat, s: RansSymbol): nat
    requires s.freq > 0
  {
    Coded(Renormalised(x, s.freq), s.freq, s.cumFreq)
  }

  ghost predicate InRange(x: int) { 0x80_0000 <= x < 0x8000_0000 }

  /** After renormalisation the state lies in [2^11 f, 2^19 f), after at most two bytes. */
  lemma RenormaliseBounds(x: nat, f: nat)
    requires InRange(x) && 1 <= f <= 4096
    ensures 0x800 * f <= Renormalised(x, f) < 0x8_0000 * f
    ensures |Pushed(x, f)| <= 2
    ensures Pushed(x, f) != [] ==> Renormalised(x, f) < 0x80_0000
  {
    var x1 := x / 0x100;
    var x2 := x1 / 0x100;
    assert x1 < 0x80_0000 && x2 < 0x8000;
    assert Renormalised(x2, f) == x2 && Pushed(x2, f) == [];
    if x >= 0x8_0000 * f {
      assert x1 >= 0x800 * f;
      if x1 >= 0x8_0000 * f {
        assert x2 >= 0x800 * f;
        assert Renormalised(x1, f) == x2 && Pushed(x1, f) == [x1 % 0x100];
      } else {
        assert Renormalised(x1, f) == x1 && Pushed(x1, f) == [];
      }
    }
  }

  lemma CodedInRange(x: nat, f: nat, cum: nat)
    requires 1 <= f && cum + f <= 4096
    requires 0x800 * f <= x < 0x8_0000 * f
    ensures InRange(Coded(x, f, cum))
    ensures Coded(x, f, cum) / 4096 == x / f
    ensures Coded(x, f, cum) % 4096 == x % f + cum
  {
    var q := x / f;
    assert x == q * f + x % f;
    assert 0x800 <= q by {
      assert 0x800 * f < (q + 1) * f;
      MulOrder(0x800, q + 1, f);
    }
    assert q < 0x8_0000 by {
      assert (q + 1) * f <= 0x8_0000 * f + f;
      if q >= 0x8_0000 {
        MulMonotone(0x8_0000, q, f);
      }
    }
    DivUnique(Coded(x, f, cum), 4096, q, x % f + cum);
  }

  // ---- Division by reciprocal multiplication ----

  /** The approximate quotient of putSymbolFast. */
  function ApproxQuotient(x: nat, f: nat): nat
  {
    x * Reciprocal(f) / 0x1_0000_0000
  }

  lemma ReciprocalOfOne(x: nat)
    requires 0 < x < 0x1_0000_0000
    ensures ApproxQuotient(x, 1) == x - 1
  {
    assert Reciprocal(1) == 0xFFFF_FFFF;
    DivUnique(x * 0xFFFF_FFFF, 0x1_0000_0000, x - 1, 0x1_0000_0000 - x);
  }

  /** For 2 <= f the truncated reciprocal is short by less than f units of 2^-32, so below
      2^31 the quotient is short by at most one. */
  lemma ReciprocalOfMany(x: nat, f: nat)
    requires 2 <= f <= 4096 && x < 0x8000_0000
    ensures x / f - 1 <= ApproxQuotient(x, f) <= x / f
  {
    var rcp, t, q := Reciprocal(f), x / f, ApproxQuotient(x, f);
    var e, rho, xr := 0x1_0000_0000 - rcp * f, x - t * f, x * rcp;
    assert rcp == 0x1_0000_0000 / f && 0 <= e < f && 0 <= rho < f;
    assert q * 0x1_0000_0000 <= xr < (q + 1) * 0x1_0000_0000;
    var xe := x * e;
    assert xr * f == x * 0x1_0000_0000 - xe by {
      assert xr * f == x * (rcp * f);
      assert x * (rcp * f) == x * (0x1_0000_0000 - e);
    }
    assert 0 <= xe <= 0x8000_0000 * f by {
      MulMonotone(e, f, x);
      MulMonotone(x, 0x8000_0000, f);
    }
    QuotientFromProduct(x, f, xr, xe, t, rho, q);
  }

  lemma QuotientFromProduct(x: nat, f: nat, xr: nat, xe: nat, t: nat, rho: nat, q: nat)
    requires f >= 2 && x == t * f + rho && rho < f
    requires q * 0x1_0000_0000 <= xr < (q + 1) * 0x1_0000_0000
    requires xr * f == x * 0x1_0000_0000 - xe && xe <= 0x8000_0000 * f
    ensures t - 1 <= q <= t
  {
    ScaleProduct(q, xr, f);
    ScaleProduct(xr + 1, q + 1, f);
    assert (xr + 1) * f == xr * f + f;
    assert (q + 1) * f == q * f + f;
    assert q * f <= x < q * f + 2 * f;
    assert (t + 1) * f == t * f + f && (q + 2) * f == q * f + 2 * f;
    MulLess(q, t + 1, f);
    MulLess(t, q + 2, f);
  }

  lemma ScaleProduct(q: nat, xr: nat, f: nat)
    ensures q * 0x1_0000_0000 <= xr ==> q * f * 0x1_0000_0000 <= xr * f
    ensures q <= xr * 0x1_0000_0000 ==> q * f <= xr * f * 0x1_0000_0000
  {
    if q * 0x1_0000_0000 <= xr {
      MulMonotone(q * 0x1_0000_0000, xr, f);
    }
    if q <= xr * 0x1_0000_0000 {
      MulMonotone(q, xr * 0x1_0000_0000, f);
    }
  }

  /** putSymbolFast's division, with its single fix-up, is exact for every frequency. */
  lemma FixUpExact(x: nat, f: nat)
    requires 1 <= f <= 4096 && 0 < x < 0x8000_0000
    ensures var q := ApproxQuotient(x, f);
      && q * f <= x
      && (x - q * f >= f ==> q + 1 == x / f && x - q * f - f == x % f)
      && (x - q * f < f ==> q == x / f && x - q * f == x % f)
  {
    var q := ApproxQuotient(x, f);
    if f == 1 {
      ReciprocalOfOne(x);
    } else {
      ReciprocalOfMany(x, f);
    }
    assert x == x / f * f + x % f;
    if q == x / f {
    } else {
      assert q == x / f - 1;
      assert q * f == x / f * f - f;
    }
  }

  // ---- Encoding a sequence ----

  /** Symbol i is coded in lane i mod lanes. */
  function Lane(i: nat, lanes: nat): (k: nat)
    requires lanes > 0
    ensures k < lanes
  {
    if i < lanes then i else Lane(i - lanes, lanes)
  }

  lemma {:induction false} LaneIsMod(i: nat, lanes: nat)
    requires lanes > 0
    ensures Lane(i, lanes) == i % lanes
  {
    if i >= lanes {
      LaneIsMod(i - lanes, lanes);
      ModShift(i - lanes, lanes);
    }
  }

  /** Every lane starts at RANS_L. */
  function InitialStates(lanes: nat): (st: seq<nat>)
    ensures |st| == lanes
  {
    seq(lanes, i => 0x80_0000)
  }

  /** The bytes in the order the decoder meets them. */
  function Reverse(s: seq<u8>): (r: seq<u8>)
    ensures |r| == |s|
  {
    if s == [] then [] else Reverse(s[1..]) + [s[0]]
  }

  lemma {:induction false} ReverseConcat(a: seq<u8>, b: seq<u8>)
    ensures Reverse(a + b) == Reverse(b) + Reverse(a)
  {
    if a == [] {
      assert a + b == b;
    } else {
      assert (a + b)[1..] == a[1..] + b;
      ReverseConcat(a[1..], b);
    }
  }

  /** Encoder states and output bytes once symbols i.. have been coded (last one first).
      Symbols of frequency zero are skipped. */
  function EncodeFrom(lanes: nat, syms: seq<u8>, table: seq<RansSymbol>, i: nat): (res: (seq<nat>, seq<u8>))
    requires lanes > 0 && |table| == 256 && i <= |syms|
    ensures |res.0| == lanes
    decreases |syms| - i
  {
    if i == |syms| then (InitialStates(lanes), [])
    else
      var (st, out) := EncodeFrom(lanes, syms, table, i + 1);
      var s, k := table[syms[i]], Lane(i, lanes);
      if s.freq == 0 then (st, out)
      else (st[k := Step(st[k], s)], Reverse(Pushed(st[k], s.freq)) + out)
  }

  function StateBytes(st: seq<nat>): (s: seq<u8>)
    requires forall k :: 0 <= k < |st| ==> 0 <= st[k] < 0x1_0000_0000
    ensures |s| == 4 * |st|
  {
    if st == [] then [] else StateBytes(st[..|st| - 1]) + Be32(st[|st| - 1])
  }

  ghost predicate StatesInRange(st: seq<nat>) { forall k :: 0 <= k < |st| ==> InRange(st[k]) }

  /** A table as buildFreqTableCore makes it. */
  ghost predicate ValidTable(table: seq<RansSymbol>)
  {
    && |table| == 256
    && Sum(Freqs(table)) == 4096
    && forall i :: 0 <= i < 256 ==>
        table[i].cumFreq == Sum(Freqs(table)[..i]) && table[i].rcpFreq == Reciprocal(table[i].freq)
  }

  ghost function Freqs(table: seq<RansSymbol>): (f: seq<nat>)
    ensures |f| == |table|
  {
    seq(|table|, i requires 0 <= i < |table| => table[i].freq)
  }

  lemma MadeTableValid(counts: seq<nat>)
    requires |counts| == 256
    ensures ValidTable(FrequencyTableOf(counts))
    ensures Freqs(FrequencyTableOf(counts)) == Frequencies(counts)
  {
    FrequenciesFit(counts);
    assert Freqs(FrequencyTableOf(counts)) == Frequencies(counts);
  }

  lemma IntervalFits(table: seq<RansSymbol>, i: nat)
    requires ValidTable(table) && i < 256
    ensures table[i].cumFreq + table[i].freq <= 4096
  {
    var f := Freqs(table);
    SumStep(f, i);
    SumMonotone(f, i + 1, 256);
    assert f[..256] == f;
  }

  lemma StepInRange(x: nat, table: seq<RansSymbol>, sym: u8)
    requires InRange(x) && ValidTable(table) && table[sym].freq > 0
    ensures InRange(Step(x, table[sym]))
    ensures |Pushed(x, table[sym].freq)| <= 2
  {
    IntervalFits(table, sym);
    RenormaliseBounds(x, table[sym].freq);
    CodedInRange(Renormalised(x, table[sym].freq), table[sym].freq, table[sym].cumFreq);
  }

  /** The state interval is kept by every symbol, and two bytes a symbol bound the output. */
  lemma {:induction false} EncodeInRange(lanes: nat, syms: seq<u8>, table: seq<RansSymbol>, i: nat)
    requires lanes > 0 && ValidTable(table) && i <= |syms|
    ensures StatesInRange(EncodeFrom(lanes, syms, table, i).0)
    ensures |EncodeFrom(lanes, syms, table, i).1| <= 2 * (|syms| - i)
    decreases |syms| - i
  {
    if i < |syms| {
      EncodeInRange(lanes, syms, table, i + 1);
      if table[syms[i]].freq > 0 {
        StepInRange(EncodeFrom(lanes, syms, table, i + 1).0[Lane(i, lanes)], table, syms[i]);
      }
    }
  }

  /** Everything the encoder emits: final states, big-endian, then the byte stack reversed. */
  function Encoded(lanes: nat, syms: seq<u8>, table: seq<RansSymbol>): seq<u8>
    requires lanes > 0 && ValidTable(table)
  {
    EncodeInRange(lanes, syms, table, 0);
    var (st, out) := EncodeFrom(lanes, syms, table, 0);
    if syms == [] then [] else StateBytes(st) + out
  }

  // ---- Decoding ----

  datatype DecodeEntry = DecodeEntry(symbol: nat, freq: nat, cumFreq: nat)

  /** The first symbol at or after i whose interval, starting at cum, contains the slot. */
  function SymbolAt(freqs: seq<nat>, slot: nat, i: nat, cum: nat): Option<(nat, nat)>
    requires i <= |freqs|
    decreases |freqs| - i
  {
    if i == |freqs| then None
    else if cum <= slot < cum + freqs[i] then Some((i, cum))
    else SymbolAt(freqs, slot, i + 1, cum + freqs[i])
  }

  /** The decode table of frequencies that sum to at most 4096; unused slots stay zero. */
  function EntryOf(freqs: seq<nat>, slot: nat): DecodeEntry
    requires |freqs| == 256 && Sum(freqs) <= 4096
  {
    match SymbolAt(freqs, slot, 0, 0)
    case None => DecodeEntry(0, 0, 0)
    case Some((i, cum)) => if i < 256 then DecodeEntry(i, freqs[i], cum) else DecodeEntry(0, 0, 0)
  }

  function DecodeTableOf(freqs: seq<nat>): (t: seq<DecodeEntry>)
    requires |freqs| == 256 && Sum(freqs) <= 4096
    ensures |t| == 4096
  {
    seq(4096, slot requires 0 <= slot < 4096 => EntryOf(freqs, slot))
  }

  /** The slot of a symbol's interval is found to belong to it. */
  lemma {:induction false} SymbolAtFinds(freqs: seq<nat>, slot: nat, i: nat, sym: nat)
    requires i <= sym < |freqs|
    requires Sum(freqs[..sym]) <= slot < Sum(freqs[..sym]) + freqs[sym]
    ensures SymbolAt(freqs, slot, i, Sum(freqs[..i])) == Some((sym, Sum(freqs[..sym])))
    decreases sym - i
  {
    SumStep(freqs, i);
    if i < sym {
      SumMonotone(freqs, i + 1, sym);
      SymbolAtFinds(freqs, slot, i + 1, sym);
    }
  }

  /** The state after removing a symbol, before any byte is read (32-bit arithmetic). */
  function Removed(x: nat, e: DecodeEntry): u32
  {
    ToU32(e.freq * (x / 4096) + x % 4096 - e.cumFreq)
  }

  /** Reading bytes until the state is back in range; None when the input runs out. */
  function Refill(x: nat, input: seq<u8>): Option<(nat, seq<u8>)>
    decreases |input|
  {
    if x >= 0x80_0000 then Some((x, input))
    else if input == [] then None
    else Refill(x * 0x100 + input[0], input[1..])
  }

  /** Decoder state: the lanes and the input not read yet. */
  datatype DecoderState = DecoderState(st: seq<nat>, input: seq<u8>)

  /** One symbol from lane k. */
  function DecodeOne(k: nat, dt: seq<DecodeEntry>, d: DecoderState): (res: Option<(u8, DecoderState)>)
    requires |dt| == 4096 && k < |d.st|
    ensures res.Some? ==> |res.value.1.st| == |d.st|
  {
    var e := dt[d.st[k] % 4096];
    match Refill(Removed(d.st[k], e), d.input)
    case None => None
    case Some((x, rest)) => Some((ToU8(e.symbol), DecoderState(d.st[k := x], rest)))
  }

  /** Symbols i..count; None when the input runs out. */
  function DecodeFrom(lanes: nat, dt: seq<DecodeEntry>, d: DecoderState, i: nat, count: nat)
    : (res: Option<(seq<u8>, DecoderState)>)
    requires lanes > 0 && |dt| == 4096 && |d.st| == lanes && i <= count
    ensures res.Some? ==> |res.value.0| == count - i
    decreases count - i
  {
    if i == count then Some(([], d))
    else
      match DecodeOne(Lane(i, lanes), dt, d)
      case None => None
      case Some((sym, d1)) =>
        match DecodeFrom(lanes, dt, d1, i + 1, count)
        case None => None
        case Some((syms, fin)) => Some(([sym] + syms, fin))
  }

  function StateAt(data: seq<u8>, k: nat): nat
    requires 4 * k + 4 <= |data|
  {
    FromBe32(data[4 * k], data[4 * k + 1], data[4 * k + 2], data[4 * k + 3])
  }

  function ReadStates(data: seq<u8>, lanes: nat): (st: seq<nat>)
    requires |data| >= 4 * lanes
    ensures |st| == lanes
  {
    seq(lanes, k requires 0 <= k < lanes => StateAt(data, k))
  }

  /** decode / decodeInterleaved. */
  function Decoded(lanes: nat, data: seq<u8>, dt: seq<DecodeEntry>, count: nat): (res: Outcome<seq<u8>>)
    requires lanes > 0 && |dt| == 4096
    ensures res.Done? ==> |res.value| == count
  {
    if |data| < 4 * lanes || count == 0 then Rejected
    else
      match DecodeFrom(lanes, dt, DecoderState(ReadStates(data, lanes), data[4 * lanes..]), 0, count)
      case None => Unspecified
      case Some((syms, _)) => Done(syms)
  }

  // ---- Round trip ----

  /** The decoder reads back exactly the bytes renormalisation pushed. */
  lemma {:induction false} RefillUndoes(x: nat, f: nat, rest: seq<u8>)
    requires f > 0 && InRange(x)
    requires Pushed(x, f) != [] ==> Renormalised(x, f) < 0x80_0000
    ensures Refill(Renormalised(x, f), Reverse(Pushed(x, f)) + rest) == Some((x, rest))
  {
    if x >= 0x8_0000 * f {
      RefillTo(x, f, rest);
    } else {
      assert Reverse([]) + rest == rest;
    }
  }

  lemma {:induction false} RefillTo(x: nat, f: nat, rest: seq<u8>)
    requires f > 0 && x < 0x8000_0000
    requires x >= 0x8_0000 * f
    ensures Refill(Renormalised(x, f), Reverse(Pushed(x, f)) + rest) == Refill(x, rest)
  {
    var y, b := x / 0x100, x % 0x100;
    assert y < 0x80_0000 && y * 0x100 + b == x;
    var p := Reverse(Pushed(y, f));
    assert Pushed(x, f)[1..] == Pushed(y, f);
    assert Reverse(Pushed(x, f)) + rest == p + ([b] + rest);
    assert ([b] + rest)[1..] == rest;
    if y >= 0x8_0000 * f {
      RefillTo(y, f, [b] + rest);
    } else {
      assert p + ([b] + rest) == [b] + rest;
    }
  }

  lemma RemovedUndoesCoded(x: nat, f: nat, cum: nat, e: DecodeEntry)
    requires 1 <= f <= 4096 && cum + f <= 4096
    requires 0x800 * f <= x < 0x8_0000 * f && e.freq == f && e.cumFreq == cum
    ensures Removed(Coded(x, f, cum), e) == x
  {
    CodedInRange(x, f, cum);
    assert f * (x / f) + x % f == x;
  }

  /** Decoding one symbol undoes coding it: same symbol, same state, same bytes. */
  lemma SymbolRoundTrip(x: nat, table: seq<RansSymbol>, dt: seq<DecodeEntry>, sym: u8, rest: seq<u8>)
    requires InRange(x) && ValidTable(table) && table[sym].freq > 0
    requires dt == DecodeTableOf(Freqs(table))
    ensures var y := Step(x, table[sym]);
      var e := dt[y % 4096];
      e.symbol == sym && Refill(Removed(y, e), Reverse(Pushed(x, table[sym].freq)) + rest) == Some((x, rest))
  {
    var f, cum := table[sym].freq, table[sym].cumFreq;
    var x1 := Renormalised(x, f);
    var y := Step(x, table[sym]);
    IntervalFits(table, sym);
    RenormaliseBounds(x, f);
    CodedInRange(x1, f, cum);
    SymbolAtFinds(Freqs(table), y % 4096, 0, sym);
    var e := dt[y % 4096];
    assert e == DecodeEntry(sym, f, cum);
    RemovedUndoesCoded(x1, f, cum, e);
    RefillUndoes(x, f, rest);
  }

  lemma OneUndone(k: nat, st: seq<nat>, table: seq<RansSymbol>, dt: seq<DecodeEntry>, sym: u8, rest: seq<u8>,
                  d: DecoderState)
    requires k < |st| && InRange(st[k]) && ValidTable(table) && table[sym].freq > 0
    requires dt == DecodeTableOf(Freqs(table))
    requires d.st == st[k := Step(st[k], table[sym])]
    requires d.input == Reverse(Pushed(st[k], table[sym].freq)) + rest
    ensures DecodeOne(k, dt, d) == Some((sym, DecoderState(st, rest)))
  {
    var y := Step(st[k], table[sym]);
    SymbolRoundTrip(st[k], table, dt, sym, rest);
    assert d.st[k] == y && d.st[k := st[k]] == st;
    OneDecoded(k, dt, d, dt[y % 4096], st[k], rest);
  }

  lemma OneDecoded(k: nat, dt: seq<DecodeEntry>, d: DecoderState, e: DecodeEntry, x: nat, rest: seq<u8>)
    requires |dt| == 4096 && k < |d.st| && e == dt[d.st[k] % 4096] && e.symbol < 0x100
    requires Refill(Removed(d.st[k], e), d.input) == Some((x, rest))
    ensures DecodeOne(k, dt, d) == Some((e.symbol, DecoderState(d.st[k := x], rest)))
  {
  }

  ghost predicate AllCoded(syms: seq<u8>, table: seq<RansSymbol>)
    requires |table| == 256
  {
    forall i :: 0 <= i < |syms| ==> table[syms[i]].freq > 0
  }

  /** What a decoder sees once it has decoded the symbols before i. */
  ghost function Midway(lanes: nat, syms: seq<u8>, table: seq<RansSymbol>, i: nat, rest: seq<u8>): (d: DecoderState)
    requires lanes > 0 && |table| == 256 && i <= |syms|
    ensures |d.st| == lanes
  {
    var (st, out) := EncodeFrom(lanes, syms, table, i);
    DecoderState(st, out + rest)
  }

  lemma MidwayStep(lanes: nat, syms: seq<u8>, table: seq<RansSymbol>, dt: seq<DecodeEntry>, i: nat, rest: seq<u8>)
    requires lanes > 0 && ValidTable(table) && i < |syms| && table[syms[i]].freq > 0
    requires dt == DecodeTableOf(Freqs(table))
    ensures DecodeOne(Lane(i, lanes), dt, Midway(lanes, syms, table, i, rest))
         == Some((syms[i], Midway(lanes, syms, table, i + 1, rest)))
  {
    var (st1, out1) := EncodeFrom(lanes, syms, table, i + 1);
    var k, d := Lane(i, lanes), Midway(lanes, syms, table, i, rest);
    EncodeInRange(lanes, syms, table, i + 1);
    assert d.input == Reverse(Pushed(st1[k], table[syms[i]].freq)) + (out1 + rest);
    OneUndone(k, st1, table, dt, syms[i], out1 + rest, d);
  }

  lemma {:induction false} DecodeUndoesEncode(lanes: nat, syms: seq<u8>, table: seq<RansSymbol>, dt: seq<DecodeEntry>,
                                              i: nat, rest: seq<u8>)
    requires lanes > 0 && ValidTable(table) && AllCoded(syms, table) && i <= |syms|
    requires dt == DecodeTableOf(Freqs(table))
    ensures DecodeFrom(lanes, dt, Midway(lanes, syms, table, i, rest), i, |syms|)
         == Some((syms[i..], DecoderState(InitialStates(lanes), rest)))
    decreases |syms| - i
  {
    if i == |syms| {
      assert [] + rest == rest && syms[i..] == [];
    } else {
      MidwayStep(lanes, syms, table, dt, i, rest);
      DecodeUndoesEncode(lanes, syms, table, dt, i + 1, rest);
      HeadAndTail(syms, i);
    }
  }

  lemma HeadAndTail(s: seq<u8>, i: nat)
    requires i < |s|
    ensures [s[i]] + s[i + 1..] == s[i..]
  {
  }

  lemma {:induction false} StateBytesAt(st: seq<nat>, k: nat)
    requires StatesInRange(st) && k < |st|
    ensures StateBytes(st)[4 * k..4 * k + 4] == Be32(st[k])
  {
    var n := |st| - 1;
    if k < n {
      StateBytesAt(st[..n], k);
      assert StateBytes(st)[4 * k..4 * k + 4] == StateBytes(st[..n])[4 * k..4 * k + 4];
    }
  }

  lemma StateWordAt(st: seq<nat>, more: seq<u8>, k: nat)
    requires StatesInRange(st) && k < |st|
    ensures StateAt(StateBytes(st) + more, k) == st[k]
  {
    var data := StateBytes(st) + more;
    StateBytesAt(st, k);
    assert data[4 * k..4 * k + 4] == StateBytes(st)[4 * k..4 * k + 4];
    WordAt(data, 4 * k, st[k]);
  }

  lemma ReadStatesBack(st: seq<nat>, more: seq<u8>)
    requires StatesInRange(st)
    ensures ReadStates(StateBytes(st) + more, |st|) == st
  {
    forall k | 0 <= k < |st|
      ensures ReadStates(StateBytes(st) + more, |st|)[k] == st[k]
    {
      StateWordAt(st, more, k);
    }
  }

  /** Main result: for every non-empty symbol sequence and every valid table that gives each
      of its symbols a positive frequency, decoding returns the sequence; decoding consumes
      every byte and brings all states back to 0x80_0000; the output is at most two bytes a
      symbol beyond the states. */
  lemma RansRoundTrip(lanes: nat, syms: seq<u8>, table: seq<RansSymbol>)
    requires lanes > 0 && syms != [] && ValidTable(table) && AllCoded(syms, table)
    ensures var data, dt := Encoded(lanes, syms, table), DecodeTableOf(Freqs(table));
      && 4 * lanes <= |data| <= 4 * lanes + 2 * |syms|
      && Decoded(lanes, data, dt, |syms|) == Done(syms)
      && DecodeFrom(lanes, dt, DecoderState(ReadStates(data, lanes), data[4 * lanes..]), 0, |syms|)
           == Some((syms, DecoderState(seq(lanes, _ => 0x80_0000), [])))
  {
    var data, dt := Encoded(lanes, syms, table), DecodeTableOf(Freqs(table));
    var (st, out) := EncodeFrom(lanes, syms, table, 0);
    EncodeInRange(lanes, syms, table, 0);
    ReadStatesBack(st, out);
    assert data[4 * lanes..] == out == out + [];
    DecodeUndoesEncode(lanes, syms, table, dt, 0, []);
    assert Midway(lanes, syms, table, 0, []) == DecoderState(st, out);
    assert syms[0..] == syms;
  }
}
