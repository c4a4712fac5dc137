/** The objects of src/codec/omni/rans_codec.cpp: the encoder with its byte stack, the
    decoder, and the decode table, each proved against the functions of `Rans`. */
module RansCodec {
  import opened Words
  import opened FrequencyTable
  import opened Rans

  // ---- Decode table ----

  ghost predicate TableUpTo(freqs: seq<nat>, table: seq<DecodeEntry>, n: nat)
    requires |freqs| == 256 && Sum(freqs) <= 4096 && |table| == 4096
  {
    forall slot :: 0 <= slot < 4096 ==> table[slot] == if slot < n then EntryOf(freqs, slot) else DecodeEntry(0, 0, 0)
  }

  lemma {:induction false} NothingBeyond(freqs: seq<nat>, slot: nat, i: nat)
    requires i <= |freqs| && slot >= Sum(freqs)
    ensures SymbolAt(freqs, slot, i, Sum(freqs[..i])) == None
    decreases |freqs| - i
  {
    assert freqs[..|freqs|] == freqs;
    if i < |freqs| {
      SumStep(freqs, i);
      SumMonotone(freqs, i + 1, |freqs|);
      NothingBeyond(freqs, slot, i + 1);
    }
  }

  /** buildDecodeTable, for frequencies and cumulative frequencies that fit the table. */
  method BuildDecodeTable(symbols: seq<RansSymbol>) returns (table: array<DecodeEntry>)
    requires |symbols| == 256 && Sum(Freqs(symbols)) <= 4096
    requires forall i :: 0 <= i < 256 ==> symbols[i].cumFreq == Sum(Freqs(symbols)[..i])
    ensures fresh(table) && table[..] == DecodeTableOf(Freqs(symbols))
  {
    ghost var freqs := Freqs(symbols);
    assert freqs[..256] == freqs;
    table := new DecodeEntry[4096](_ => DecodeEntry(0, 0, 0));
    for sym := 0 to 256
      invariant TableUpTo(freqs, table[..], Sum(freqs[..sym]))
    {
      SumStep(freqs, sym);
      SumMonotone(freqs, sym + 1, 256);
      var j := 0;
      while j < symbols[sym].freq
        invariant 0 <= j <= symbols[sym].freq
        invariant TableUpTo(freqs, table[..], symbols[sym].cumFreq + j)
      {
        var idx := symbols[sym].cumFreq + j;
        SymbolAtFinds(freqs, idx, 0, sym);
        table[idx] := DecodeEntry(sym, symbols[sym].freq, symbols[sym].cumFreq);
        j := j + 1;
      }
    }
    forall slot | 0 <= slot < 4096
      ensures table[slot] == EntryOf(freqs, slot)
    {
      if slot >= Sum(freqs) {
        NothingBeyond(freqs, slot, 0);
      }
    }
  }

  // ---- Encoder ----

  lemma {:induction false} PushedStep(x: nat, f: nat)
    requires f > 0 && x >= 0x8_0000 * f
    ensures Pushed(x, f) == [x % 0x100] + Pushed(x / 0x100, f)
    ensures Renormalised(x, f) == Renormalised(x / 0x100, f)
  {
  }

  lemma EncodeStep(lanes: nat, syms: seq<u8>, table: seq<RansSymbol>, i: nat, next: nat, st: seq<nat>, out: seq<u8>)
    requires lanes > 0 && |table| == 256 && i < |syms| && next == i + 1
    requires EncodeFrom(lanes, syms, table, next) == (st, out)
    ensures |st| == lanes
    ensures var s, k := table[syms[i]], Lane(i, lanes);
      EncodeFrom(lanes, syms, table, i)
        == if s.freq == 0 then (st, out) else (st[k := Step(st[k], s)], Reverse(Pushed(st[k], s.freq)) + out)
  {
  }

  class RansEncoder {
    var stack: array<u8>

    constructor ()
      ensures fresh(stack)
    {
      stack := new u8[0];
    }

    /** Pushes the bytes of renormalisation onto the stack and codes the symbol with one
        multiplication in place of the division. */
    method PutSymbolFast(x: u32, sym: RansSymbol, sp: nat) returns (state: u32, sp': nat)
      requires InRange(x) && 1 <= sym.freq <= 4096 && sym.cumFreq + sym.freq <= 4096
      requires sym.rcpFreq == Reciprocal(sym.freq)
      requires sp + 2 <= stack.Length
      modifies stack
      ensures sp <= sp' <= sp + 2
      ensures stack[..sp'] == old(stack[..sp]) + Pushed(x, sym.freq)
      ensures state == Step(x, sym) && InRange(state)
    {
      var f := sym.freq;
      RenormaliseBounds(x, f);
      state, sp' := x, sp;
      while state >= 0x8_0000 * f
        invariant sp <= sp' <= stack.Length
        invariant sp' - sp + |Pushed(state, f)| == |Pushed(x, f)|
        invariant stack[..sp'] + Pushed(state, f) == old(stack[..sp]) + Pushed(x, f)
        invariant Renormalised(state, f) == Renormalised(x, f)
        decreases state
      {
        PushedStep(state, f);
        ghost var before, more := stack[..sp'], Pushed(state / 0x100, f);
        stack[sp'] := state % 0x100;
        sp' := sp' + 1;
        assert stack[..sp'] == before + [state % 0x100];
        assert stack[..sp'] + more == before + ([state % 0x100] + more);
        state := state / 0x100;
      }
      assert Pushed(state, f) == [] && stack[..sp'] + [] == stack[..sp'];
      FixUpExact(state, f);
      CodedInRange(state, f, sym.cumFreq);
      var q := state * sym.rcpFreq / 0x1_0000_0000;
      assert q == ApproxQuotient(state, f);
      var r := state - q * f;
      if r >= f {
        q := q + 1;
        r := r - f;
      }
      state := q * 4096 + r + sym.cumFreq;
    }

    /** The backward pass shared by encode (one lane) and encodeInterleaved (four). */
    method Pass(symbols: seq<u8>, table: seq<RansSymbol>, lanes: nat, state: array<u32>) returns (sp: nat)
      requires lanes > 0 && ValidTable(table) && state.Length == lanes && state as object != stack
      requires stack.Length >= 2 * |symbols|
      requires forall k :: 0 <= k < lanes ==> state[k] == 0x80_0000
      modifies stack, state
      ensures state[..] == EncodeFrom(lanes, symbols, table, 0).0
      ensures sp <= stack.Length && Reverse(stack[..sp]) == EncodeFrom(lanes, symbols, table, 0).1
    {
      sp := 0;
      var i := |symbols|;
      assert state[..] == InitialStates(lanes);
      while i > 0
        invariant 0 <= i <= |symbols| && sp <= 2 * (|symbols| - i)
        invariant state[..] == EncodeFrom(lanes, symbols, table, i).0
        invariant Reverse(stack[..sp]) == EncodeFrom(lanes, symbols, table, i).1
      {
        ghost var st, out := EncodeFrom(lanes, symbols, table, i).0, EncodeFrom(lanes, symbols, table, i).1;
        EncodeInRange(lanes, symbols, table, i);
        i := i - 1;
        var s := table[symbols[i]];
        EncodeStep(lanes, symbols, table, i, i + 1, st, out);
        if s.freq != 0 {
          var k := i % lanes;
          LaneIsMod(i, lanes);
          IntervalFits(table, symbols[i]);
          ghost var low := stack[..sp];
          assert state[k] == st[k];
          var x, top := PutSymbolFast(state[k], s, sp);
          ReverseConcat(low, Pushed(st[k], s.freq));
          sp := top;
          state[k] := x;
          assert state[..] == st[k := x];
        }
      }
    }

    /** Appends the states, big-endian, and the reversed stack. */
    method Emit(state: array<u32>, sp: nat) returns (out: seq<u8>)
      requires sp <= stack.Length
      ensures out == StateBytes(state[..]) + Reverse(stack[..sp])
    {
      out := [];
      for k := 0 to state.Length
        invariant out == StateBytes(state[..k])
      {
        assert state[..k + 1][..k] == state[..k];
        out := out + [state[k] / 0x100_0000, state[k] / 0x1_0000 % 0x100, state[k] / 0x100 % 0x100, state[k] % 0x100];
      }
      assert state[..state.Length] == state[..];
      ghost var head := out;
      var i := sp;
      ghost var s := stack[..sp];
      while i > 0
        invariant 0 <= i <= sp
        invariant out == head + Reverse(s[i..])
      {
        i := i - 1;
        assert s[i..] == [s[i]] + s[i + 1..];
        assert out + [s[i]] == head + (Reverse(s[i + 1..]) + [s[i]]);
        out := out + [stack[i]];
      }
      assert s[0..] == s;
    }

    method Encode(symbols: seq<u8>, table: seq<RansSymbol>) returns (out: seq<u8>)
      requires ValidTable(table)
      modifies this, stack
      ensures stack == old(stack) || fresh(stack)
      ensures out == Encoded(1, symbols, table)
    {
      out := EncodeLanes(symbols, table, 1);
    }

    method EncodeInterleaved(symbols: seq<u8>, table: seq<RansSymbol>) returns (out: seq<u8>)
      requires ValidTable(table)
      modifies this, stack
      ensures stack == old(stack) || fresh(stack)
      ensures out == Encoded(4, symbols, table)
    {
      out := EncodeLanes(symbols, table, 4);
    }

    method EncodeLanes(symbols: seq<u8>, table: seq<RansSymbol>, lanes: nat) returns (out: seq<u8>)
      requires lanes > 0 && ValidTable(table)
      modifies this, stack
      ensures stack == old(stack) || fresh(stack)
      ensures out == Encoded(lanes, symbols, table)
    {
      if |symbols| == 0 {
        return [];
      }
      if stack.Length < 2 * |symbols| {
        stack := new u8[2 * |symbols|];
      }
      var state := new u32[lanes](_ => 0x80_0000);
      var sp := Pass(symbols, table, lanes, state);
      out := Emit(state, sp);
    }
  }

  // ---- Decoder ----

  ghost function Prepend(p: seq<u8>, res: Option<(seq<u8>, DecoderState)>): Option<(seq<u8>, DecoderState)>
  {
    if res == None then None else Some((p + res.value.0, res.value.1))
  }

  /** Moving one decoded symbol from the recursion into the prefix. */
  lemma PrependStep(p: seq<u8>, lanes: nat, dt: seq<DecodeEntry>, d: DecoderState, i: nat, count: nat)
    requires lanes > 0 && |dt| == 4096 && |d.st| == lanes && i < count
    ensures var one := DecodeOne(Lane(i, lanes), dt, d);
      Prepend(p, DecodeFrom(lanes, dt, d, i, count))
        == if one == None then None
           else Prepend(p + [one.value.0], DecodeFrom(lanes, dt, one.value.1, i + 1, count))
  {
    var one := DecodeOne(Lane(i, lanes), dt, d);
    if one.Some? {
      var more := DecodeFrom(lanes, dt, one.value.1, i + 1, count);
      if more.Some? {
        assert p + ([one.value.0] + more.value.0) == (p + [one.value.0]) + more.value.0;
      }
    }
  }

  class RansDecoder {
    constructor ()
    {
    }

    /** advance: false stands for reading past the end of the data. */
    method Advance(x: u32, entry: DecodeEntry, data: seq<u8>, ptr: nat) returns (ok: bool, state: u32, ptr': nat)
      requires ptr <= |data|
      ensures ok ==> ptr' <= |data| && Refill(Removed(x, entry), data[ptr..]) == Some((state, data[ptr'..]))
      ensures !ok ==> Refill(Removed(x, entry), data[ptr..]) == None
    {
      state := ToU32(entry.freq * (x / 4096) + x % 4096 - entry.cumFreq);
      ptr' := ptr;
      while state < 0x80_0000
        invariant ptr <= ptr' <= |data|
        invariant Refill(state, data[ptr'..]) == Refill(Removed(x, entry), data[ptr..])
        decreases |data| - ptr'
      {
        if ptr' == |data| {
          return false, state, ptr';
        }
        assert data[ptr'..][1..] == data[ptr' + 1..];
        state := state * 0x100 + data[ptr'];
        ptr' := ptr' + 1;
      }
      ok := true;
    }

    /** Decodes the symbol at index i from lane k and advances that lane. */
    method Symbol(dt: array<DecodeEntry>, state: array<u32>, k: nat, data: seq<u8>, ptr: nat)
      returns (ok: bool, sym: u8, ptr': nat)
      requires dt.Length == 4096 && k < state.Length && ptr <= |data| && state as object != dt
      modifies state
      ensures var d := DecoderState(old(state[..]), data[ptr..]);
        if ok then ptr' <= |data| && DecodeOne(k, dt[..], d) == Some((sym, DecoderState(state[..], data[ptr'..])))
        else DecodeOne(k, dt[..], d) == None
    {
      var entry := dt[state[k] % 4096];
      assert old(state[..])[k] == state[k];
      sym := ToU8(entry.symbol);
      var x;
      ok, x, ptr' := Advance(state[k], entry, data, ptr);
      if ok {
        state[k] := x;
        assert state[..] == old(state[..])[k := x];
      }
    }

    method LoadStates(data: seq<u8>, lanes: nat) returns (state: array<u32>)
      requires |data| >= 4 * lanes
      ensures fresh(state) && state[..] == ReadStates(data, lanes)
    {
      state := new u32[lanes];
      for k := 0 to lanes
        invariant forall j :: 0 <= j < k ==>
          state[j] == StateAt(data, j)
      {
        state[k] := FromBe32(data[4 * k], data[4 * k + 1], data[4 * k + 2], data[4 * k + 3]);
      }
    }

    /** decode: one state. */
    method Decode(data: seq<u8>, dt: array<DecodeEntry>, count: nat, output: array<u8>) returns (res: Outcome<()>)
      requires dt.Length == 4096 && output.Length >= count && output as object != dt
      modifies output
      ensures var spec := Decoded(1, data, dt[..], count);
        && (spec.Done? <==> res.Done?) && (spec.Rejected? <==> res.Rejected?)
        && (spec.Done? ==> output[..count] == spec.value)
    {
      if |data| < 4 || count == 0 {
        return Rejected;
      }
      var state := LoadStates(data, 1);
      var ptr: nat := 4;
      ghost var goal := DecodeFrom(1, dt[..], DecoderState(state[..], data[4..]), 0, count);
      assert goal.Some? ==> [] + goal.value.0 == goal.value.0;
      assert output[..0] == [];
      for i := 0 to count
        invariant ptr <= |data|
        invariant goal == Prepend(output[..i], DecodeFrom(1, dt[..], DecoderState(state[..], data[ptr..]), i, count))
      {
        PrependStep(output[..i], 1, dt[..], DecoderState(state[..], data[ptr..]), i, count);
        LaneIsMod(i, 1);
        var ok, sym, p := Symbol(dt, state, 0, data, ptr);
        if !ok {
          return Unspecified;
        }
        output[i] := sym;
        ptr := p;
        assert output[..i + 1] == output[..i] + [sym];
      }
      res := Done(());
    }

    /** One lane of a batch: advances lane k with the entry fetched for it beforehand. */
    method AdvanceLane(state: array<u32>, k: nat, entry: DecodeEntry, data: seq<u8>, ptr: nat,
                       ghost dt: seq<DecodeEntry>, ghost d: DecoderState)
      returns (ok: bool, ptr': nat, ghost d': DecoderState)
      requires |dt| == 4096 && k < state.Length && ptr <= |data|
      requires d == DecoderState(state[..], data[ptr..]) && entry == dt[state[k] % 4096]
      modifies state
      ensures ok ==> ptr' <= |data| && d' == DecoderState(state[..], data[ptr'..])
      ensures ok ==> DecodeOne(k, dt, d) == Some((ToU8(entry.symbol), d'))
      ensures ok ==> forall j :: 0 <= j < state.Length && j != k ==> state[j] == old(state[j])
      ensures !ok ==> DecodeOne(k, dt, d) == None
    {
      assert d.st[k] == state[k];
      var x;
      d' := d;
      ok, x, ptr' := Advance(state[k], entry, data, ptr);
      if ok {
        state[k] := x;
        d' := DecoderState(state[..], data[ptr'..]);
        assert d'.st == d.st[k := x];
      }
    }

    /** Advances the four lanes in order, each with the entry fetched before any advanced. */
    method AdvanceFour(state: array<u32>, e: seq<DecodeEntry>, data: seq<u8>, ptr0: nat, ghost dt: seq<DecodeEntry>,
                       ghost d0: DecoderState)
      returns (ok: bool, ptr: nat, ghost d: DecoderState)
      requires |dt| == 4096 && state.Length == 4 && ptr0 <= |data| && d0 == DecoderState(state[..], data[ptr0..])
      requires |e| == 4 && forall k :: 0 <= k < 4 ==> e[k] == dt[state[k] % 4096]
      modifies state
      ensures ok ==> ptr <= |data| && d == DecoderState(state[..], data[ptr..])
      ensures DecodeLanes(dt, d0, 0)
           == if ok then Some(([ToU8(e[0].symbol), ToU8(e[1].symbol), ToU8(e[2].symbol), ToU8(e[3].symbol)], d))
              else None
    {
      ok, ptr, d := true, ptr0, d0;
      var k: nat := 0;
      ghost var got: seq<u8> := [];
      ghost var four := [ToU8(e[0].symbol), ToU8(e[1].symbol), ToU8(e[2].symbol), ToU8(e[3].symbol)];
      PrependNothing(DecodeLanes(dt, d0, 0));
      while k < 4
        invariant k <= 4 && ptr <= |data| && d == DecoderState(state[..], data[ptr..])
        invariant forall j :: k <= j < 4 ==> e[j] == dt[state[j] % 4096]
        invariant got == four[..k]
        invariant DecodeLanes(dt, d0, 0) == Prepend(got, DecodeLanes(dt, d, k))
      {
        LanesStep(got, dt, d, k);
        ok, ptr, d := AdvanceLane(state, k, e[k], data, ptr, dt, d);
        if !ok {
          return;
        }
        got := got + [ToU8(e[k].symbol)];
        k := k + 1;
      }
      assert got + [] == four;
    }

    /** The body of the batched loop. */
    method Batch(data: seq<u8>, dt: array<DecodeEntry>, output: array<u8>, state: array<u32>, i: nat, ptr0: nat,
                 ghost d0: DecoderState)
      returns (ok: bool, ptr: nat, ghost d: DecoderState)
      requires dt.Length == 4096 && output as object != dt && state as object != dt && state as object != output
      requires i + 4 <= output.Length && ptr0 <= |data| && state.Length == 4
      requires d0 == DecoderState(state[..], data[ptr0..])
      modifies output, state
      ensures dt[..] == old(dt[..])
      ensures ok ==> ptr <= |data| && d == DecoderState(state[..], data[ptr..])
      ensures DecodeLanes(dt[..], d0, 0) == if ok then Some((output[i..i + 4], d)) else None
      ensures output[..i] == old(output[..i])
    {
      var e := [dt[state[0] % 4096], dt[state[1] % 4096], dt[state[2] % 4096], dt[state[3] % 4096]];
      output[i + 0] := ToU8(e[0].symbol);
      output[i + 1] := ToU8(e[1].symbol);
      output[i + 2] := ToU8(e[2].symbol);
      output[i + 3] := ToU8(e[3].symbol);
      ok, ptr, d := AdvanceFour(state, e, data, ptr0, dt[..], d0);
      assert output[i..i + 4] == [ToU8(e[0].symbol), ToU8(e[1].symbol), ToU8(e[2].symbol), ToU8(e[3].symbol)];
    }

    method BatchAt(data: seq<u8>, dt: array<DecodeEntry>, output: array<u8>, state: array<u32>, i: nat, ptr0: nat,
                   ghost count: nat, ghost b: nat, ghost d0: DecoderState)
      returns (ok: bool, ptr: nat, ghost d: DecoderState)
      requires dt.Length == 4096 && output as object != dt && state as object != dt && state as object != output
      requires i == 4 * b && i + 4 <= count <= output.Length && ptr0 <= |data| && state.Length == 4
      requires d0 == DecoderState(state[..], data[ptr0..])
      modifies output, state
      ensures dt[..] == old(dt[..])
      ensures ok ==> ptr <= |data| && d == DecoderState(state[..], data[ptr..])
      ensures Prepend(old(output[..i]), DecodeFrom(4, dt[..], d0, i, count))
           == if ok then Prepend(output[..i + 4], DecodeFrom(4, dt[..], d, i + 4, count)) else None
    {
      ghost var p, table := output[..i], dt[..];
      BatchStep(p, table, d0, b, count);
      ok, ptr, d := Batch(data, dt, output, state, i, ptr0, d0);
      assert output[..i + 4] == p + output[i..i + 4];
    }

    /** decodeInterleaved: four states, fetching four entries before advancing any of them,
        then a tail of at most three symbols one at a time. */
    method DecodeInterleaved(data: seq<u8>, dt: array<DecodeEntry>, count: nat, output: array<u8>)
      returns (res: Outcome<()>)
      requires dt.Length == 4096 && output.Length >= count && output as object != dt
      modifies output
      ensures var spec := Decoded(4, data, dt[..], count);
        && (spec.Done? <==> res.Done?) && (spec.Rejected? <==> res.Rejected?)
        && (spec.Done? ==> output[..count] == spec.value)
    {
      if |data| < 16 || count == 0 {
        return Rejected;
      }
      var state := LoadStates(data, 4);
      ghost var d := DecoderState(state[..], data[16..]);
      PrependNothing(DecodeFrom(4, dt[..], d, 0, count));
      assert output[..0] == [];
      var ok, i, ptr;
      ok, i, ptr, d := Aligned(data, dt, output, state, 16, count, d);
      if !ok {
        return Unspecified;
      }
      res := Tail(data, dt, output, state, i, ptr, count, d);
    }

    /** The batched loop, up to the largest multiple of four. */
    method Aligned(data: seq<u8>, dt: array<DecodeEntry>, output: array<u8>, state: array<u32>, ptr0: nat, count: nat,
                   ghost d0: DecoderState)
      returns (ok: bool, i: nat, ptr: nat, ghost d: DecoderState)
      requires dt.Length == 4096 && output as object != dt && state as object != dt && state as object != output
      requires count <= output.Length && ptr0 <= |data| && state.Length == 4
      requires d0 == DecoderState(state[..], data[ptr0..])
      modifies output, state
      ensures dt[..] == old(dt[..])
      ensures ok ==> i <= count && ptr <= |data| && d == DecoderState(state[..], data[ptr..])
      ensures Prepend([], DecodeFrom(4, dt[..], d0, 0, count))
           == if ok then Prepend(output[..i], DecodeFrom(4, dt[..], d, i, count)) else None
    {
      ok, i, ptr, d := true, 0, ptr0, d0;
      ghost var table := dt[..];
      ghost var goal := Prepend([], DecodeFrom(4, table, d0, 0, count));
      assert output[..0] == [];
      var aligned := count / 4 * 4;
      ghost var b: nat, n: nat := 0, count / 4;
      assert aligned == 4 * n <= count;
      while i < aligned
        invariant i == 4 * b && b <= n && ptr <= |data|
        invariant dt[..] == table && d == DecoderState(state[..], data[ptr..])
        invariant goal == Prepend(output[..i], DecodeFrom(4, table, d, i, count))
      {
        ok, ptr, d := BatchAt(data, dt, output, state, i, ptr, count, b, d);
        if !ok {
          return;
        }
        i := i + 4;
        b := b + 1;
      }
    }

    method Tail(data: seq<u8>, dt: array<DecodeEntry>, output: array<u8>, state: array<u32>, i0: nat, ptr0: nat,
                count: nat, ghost d0: DecoderState)
      returns (res: Outcome<()>)
      requires dt.Length == 4096 && output as object != dt && state as object != dt && state as object != output
      requires i0 <= count <= output.Length && ptr0 <= |data| && state.Length == 4
      requires d0 == DecoderState(state[..], data[ptr0..])
      modifies output, state
      ensures res.Done? || res.Unspecified?
      ensures var was := Prepend(old(output[..i0]), DecodeFrom(4, dt[..], d0, i0, count));
        (was.Some? <==> res.Done?) && (was.Some? ==> output[..count] == was.value.0)
    {
      var i: nat, ptr: nat := i0, ptr0;
      ghost var d, table := d0, dt[..];
      ghost var goal := Prepend(output[..i], DecodeFrom(4, table, d, i, count));
      while i < count
        invariant i <= count && ptr <= |data|
        invariant dt[..] == table && d == DecoderState(state[..], data[ptr..])
        invariant goal == Prepend(output[..i], DecodeFrom(4, table, d, i, count))
      {
        PrependStep(output[..i], 4, table, d, i, count);
        LaneIsMod(i, 4);
        ghost var p := output[..i];
        var k := i % 4;
        var entry := dt[state[k] % 4096];
        output[i] := ToU8(entry.symbol);
        var ok;
        ok, ptr, d := AdvanceLane(state, k, entry, data, ptr, table, d);
        if !ok {
          return Unspecified;
        }
        assert output[..i + 1] == p + [ToU8(entry.symbol)];
        i := i + 1;
      }
      assert output[..count] + [] == output[..count];
      res := Done(());
    }
  }

  /** Lanes k..3 decoded once each, in order. */
  ghost function DecodeLanes(dt: seq<DecodeEntry>, d: DecoderState, k: nat): (res: Option<(seq<u8>, DecoderState)>)
    requires |dt| == 4096 && |d.st| == 4 && k <= 4
    ensures res.Some? ==> |res.value.0| == 4 - k && |res.value.1.st| == 4
    decreases 4 - k
  {
    if k == 4 then Some(([], d))
    else
      var one := DecodeOne(k, dt, d);
      if one == None then None else Prepend([one.value.0], DecodeLanes(dt, one.value.1, k + 1))
  }

  lemma PrependNothing(res: Option<(seq<u8>, DecoderState)>)
    ensures Prepend([], res) == res
  {
    if res.Some? {
      assert [] + res.value.0 == res.value.0;
    }
  }

  lemma PrependTwice(a: seq<u8>, b: seq<u8>, res: Option<(seq<u8>, DecoderState)>)
    ensures Prepend(a, Prepend(b, res)) == Prepend(a + b, res)
  {
    if res.Some? {
      assert a + (b + res.value.0) == (a + b) + res.value.0;
    }
  }

  lemma LanesStep(got: seq<u8>, dt: seq<DecodeEntry>, d: DecoderState, k: nat)
    requires |dt| == 4096 && |d.st| == 4 && k < 4
    ensures var one := DecodeOne(k, dt, d);
      Prepend(got, DecodeLanes(dt, d, k))
        == if one == None then None else Prepend(got + [one.value.0], DecodeLanes(dt, one.value.1, k + 1))
  {
    var one := DecodeOne(k, dt, d);
    if one.Some? {
      PrependTwice(got, [one.value.0], DecodeLanes(dt, one.value.1, k + 1));
    }
  }

  /** The symbols of `four`, then whatever decoding from i finds after them. */
  ghost function Resume(four: Option<(seq<u8>, DecoderState)>, dt: seq<DecodeEntry>, i: nat, count: nat)
    : Option<(seq<u8>, DecoderState)>
    requires |dt| == 4096 && i <= count && (four.Some? ==> |four.value.1.st| == 4)
  {
    if four == None then None else Prepend(four.value.0, DecodeFrom(4, dt, four.value.1, i, count))
  }

  lemma ResumePrepend(p: seq<u8>, four: Option<(seq<u8>, DecoderState)>, dt: seq<DecodeEntry>, i: nat, count: nat)
    requires |dt| == 4096 && i <= count && (four.Some? ==> |four.value.1.st| == 4)
    ensures Resume(Prepend(p, four), dt, i, count) == Prepend(p, Resume(four, dt, i, count))
  {
    if four.Some? {
      PrependTwice(p, four.value.0, DecodeFrom(4, dt, four.value.1, i, count));
    }
  }

  lemma StepAsPrepend(dt: seq<DecodeEntry>, d: DecoderState, i: nat, k: nat, count: nat)
    requires |dt| == 4096 && |d.st| == 4 && i < count && k == i % 4
    ensures var one := DecodeOne(k, dt, d);
      DecodeFrom(4, dt, d, i, count)
        == if one == None then None else Prepend([one.value.0], DecodeFrom(4, dt, one.value.1, i + 1, count))
  {
    LaneIsMod(i, 4);
  }

  /** Lane k decoded, then the lanes after it and whatever follows them. */
  lemma LaneThenRest(dt: seq<DecodeEntry>, d: DecoderState, k: nat, next: nat, count: nat)
    requires |dt| == 4096 && |d.st| == 4 && k < 4 && next <= count
    ensures var one := DecodeOne(k, dt, d);
      Resume(DecodeLanes(dt, d, k), dt, next, count)
        == if one == None then None
           else Prepend([one.value.0], Resume(DecodeLanes(dt, one.value.1, k + 1), dt, next, count))
  {
    var one := DecodeOne(k, dt, d);
    if one.Some? {
      ResumePrepend([one.value.0], DecodeLanes(dt, one.value.1, k + 1), dt, next, count);
    }
  }

  lemma OneMoreLane(dt: seq<DecodeEntry>, d: DecoderState, i: nat, k: nat, next: nat, count: nat)
    requires |dt| == 4096 && |d.st| == 4 && k < 4 && k == i % 4 && i < next <= count
    requires var one := DecodeOne(k, dt, d);
      one.Some? ==>
        DecodeFrom(4, dt, one.value.1, i + 1, count) == Resume(DecodeLanes(dt, one.value.1, k + 1), dt, next, count)
    ensures DecodeFrom(4, dt, d, i, count) == Resume(DecodeLanes(dt, d, k), dt, next, count)
  {
    StepAsPrepend(dt, d, i, k, count);
    LaneThenRest(dt, d, k, next, count);
  }

  lemma NoMoreLanes(dt: seq<DecodeEntry>, d: DecoderState, next: nat, count: nat)
    requires |dt| == 4096 && |d.st| == 4 && next <= count
    ensures DecodeFrom(4, dt, d, next, count) == Resume(DecodeLanes(dt, d, 4), dt, next, count)
  {
    PrependNothing(DecodeFrom(4, dt, d, next, count));
  }

  /** Lanes at once refine single steps. */
  lemma {:induction false} LanesAreSteps(dt: seq<DecodeEntry>, d: DecoderState, i: nat, k: nat, next: nat, count: nat)
    requires |dt| == 4096 && |d.st| == 4 && k <= 4 && i % 4 == k % 4 && next == i + (4 - k) && next <= count
    ensures DecodeFrom(4, dt, d, i, count) == Resume(DecodeLanes(dt, d, k), dt, next, count)
    decreases 4 - k
  {
    if k == 4 {
      NoMoreLanes(dt, d, next, count);
    } else {
      var one := DecodeOne(k, dt, d);
      if one.Some? {
        LanesAreSteps(dt, one.value.1, i + 1, k + 1, next, count);
      }
      OneMoreLane(dt, d, i, k, next, count);
    }
  }

  lemma BatchStep(p: seq<u8>, dt: seq<DecodeEntry>, d: DecoderState, b: nat, count: nat)
    requires |dt| == 4096 && |d.st| == 4 && 4 * b + 4 <= count
    ensures Prepend(p, DecodeFrom(4, dt, d, 4 * b, count))
         == Resume(Prepend(p, DecodeLanes(dt, d, 0)), dt, 4 * b + 4, count)
  {
    var i := 4 * b;
    LanesAreSteps(dt, d, i, 0, i + 4, count);
    ResumePrepend(p, DecodeLanes(dt, d, 0), dt, i + 4, count);
  }
}
