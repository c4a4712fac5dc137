/** The bitstream writer and reader of src/codec/omni/bitstream.cpp.
    `Writer` and `Reader` are the values of the two objects; the classes at the end
    update their fields in place and are proved against the functions on those values. */
module Bitstream {
  import opened Words

  // ---- Bits of a number ----

  type bit = b: int | 0 <= b < 2

  /** x >> k and x << k, one place at a time. */
  function Shr(x: nat, k: nat): (y: nat)
    ensures y <= x
  {
    if k == 0 then x else Shr(x, k - 1) / 2
  }

  function Shl(x: nat, k: nat): nat { if k == 0 then x else 2 * Shl(x, k - 1) }

  function Bit(x: nat, k: nat): bit { Shr(x, k) % 2 }

  /** The number spelled by a sequence of bits, most significant first. */
  function FromBits(bs: seq<bit>): (x: nat)
    ensures x < Pow2(|bs|)
  {
    if bs == [] then 0 else 2 * FromBits(bs[..|bs| - 1]) + bs[|bs| - 1]
  }

  /** The low n bits of x, most significant first. */
  function LowBits(x: nat, n: nat): (bs: seq<bit>)
    ensures |bs| == n
    decreases n
  {
    if n == 0 then [] else [Bit(x, n - 1)] + LowBits(x, n - 1)
  }

  lemma {:induction false} ShrDouble(y: nat, b: bit, k: nat)
    ensures Shr(2 * y + b, k + 1) == Shr(y, k)
  {
    if k > 0 {
      ShrDouble(y, b, k - 1);
    }
  }

  lemma {:induction false} BitOfFromBits(bs: seq<bit>, i: nat)
    requires i < |bs|
    ensures Bit(FromBits(bs), |bs| - 1 - i) == bs[i]
  {
    if i < |bs| - 1 {
      ShrDouble(FromBits(bs[..|bs| - 1]), bs[|bs| - 1], |bs| - 2 - i);
      BitOfFromBits(bs[..|bs| - 1], i);
    }
  }

  lemma {:induction false} ShrBelow(x: nat, n: nat, k: nat)
    requires k <= n && x < Pow2(n)
    ensures Shr(x, k) < Pow2(n - k)
  {
    if k > 0 {
      ShrBelow(x, n, k - 1);
    }
  }

  /** Appending zero bits is shifting left. */
  lemma {:induction false} FromBitsZeros(bs: seq<bit>, k: nat)
    ensures FromBits(bs + seq(k, i => 0)) == Shl(FromBits(bs), k)
  {
    var z := bs + seq(k, i => 0);
    if k == 0 {
      assert z == bs;
    } else {
      assert z[..|z| - 1] == bs + seq(k - 1, i => 0);
      FromBitsZeros(bs, k - 1);
    }
  }

  // ---- Writer ----

  /** `buf` holds the whole bytes; `pending` the bits of the byte being filled. */
  datatype Writer = Writer(buf: seq<u8>, pending: seq<bit>)

  const EMPTY_WRITER := Writer([], [])

  function ByteOf(bs: seq<bit>): u8
    requires |bs| == 8
  {
    assert Pow2(8) == 256;
    FromBits(bs)
  }

  function PutBit(w: Writer, b: bit): Writer
  {
    if |w.pending| == 7 then Writer(w.buf + [ByteOf(w.pending + [b])], [])
    else Writer(w.buf, w.pending + [b])
  }

  function PutSeq(w: Writer, bs: seq<bit>): Writer
    decreases |bs|
  {
    if bs == [] then w else PutSeq(PutBit(w, bs[0]), bs[1..])
  }

  function PutBits(w: Writer, val: u8, n: nat): Writer { PutSeq(w, LowBits(val, n)) }

  function Flush(w: Writer): Writer
  {
    if 0 < |w.pending| < 8
    then Writer(w.buf + [ByteOf(w.pending + seq(8 - |w.pending|, i => 0))], [])
    else Writer(w.buf, [])
  }

  function PutBytes(w: Writer, s: seq<u8>): Writer
  {
    Writer(Flush(w).buf + s, [])
  }

  // ---- Reader ----

  /** The next bit to read is bit `bit` (counted from the top) of `data[byte]`. */
  datatype Reader = Reader(data: seq<u8>, byte: nat, bit: nat, error: bool)

  function NewReader(data: seq<u8>): Reader { Reader(data, 0, 0, false) }

  function Align(r: Reader): Reader
  {
    if r.bit > 0 then r.(byte := r.byte + 1, bit := 0) else r
  }

  function GetBit(r: Reader): (Option<bit>, Reader)
  {
    if r.byte >= |r.data| || r.bit >= 8 then (None, r.(error := true))
    else
      (Some(Bit(r.data[r.byte], 7 - r.bit)),
       if r.bit == 7 then r.(byte := r.byte + 1, bit := 0) else r.(bit := r.bit + 1))
  }

  /** Reading n bits.  At the end of the data the result is 0 and the error flag is set,
      whatever was read before. */
  function GetSeq(r: Reader, n: nat): (res: (Option<seq<bit>>, Reader))
    ensures res.0.Some? ==> |res.0.value| == n
    decreases n
  {
    if n == 0 then (Some([]), r)
    else
      var (b, r1) := GetBit(r);
      if b == None then (None, r1)
      else
        var (bs, r2) := GetSeq(r1, n - 1);
        (if bs.Some? then Some([b.value] + bs.value) else None, r2)
  }

  /** The outcome of reading more bits after `got`. */
  ghost function Then(got: seq<bit>, more: (Option<seq<bit>>, Reader)): (Option<seq<bit>>, Reader)
  {
    (if more.0.Some? then Some(got + more.0.value) else None, more.1)
  }

  lemma ThenNothing(more: (Option<seq<bit>>, Reader))
    ensures Then([], more) == more
  {
    if more.0.Some? {
      assert [] + more.0.value == more.0.value;
    }
  }

  lemma ThenStep(got: seq<bit>, r: Reader, n: nat)
    requires n > 0 && GetBit(r).0.Some?
    ensures Then(got, GetSeq(r, n)) == Then(got + [GetBit(r).0.value], GetSeq(GetBit(r).1, n - 1))
  {
    var b, more := GetBit(r).0.value, GetSeq(GetBit(r).1, n - 1).0;
    if more.Some? {
      assert got + ([b] + more.value) == (got + [b]) + more.value;
    }
  }

  function GetBits(r: Reader, n: nat): (u8, Reader)
    requires n <= 8
  {
    assert Pow2(n) <= 256 by { Pow2Byte(n); }
    var (bs, r1) := GetSeq(r, n);
    (if bs.Some? then FromBits(bs.value) else 0, r1)
  }

  lemma Pow2Byte(n: nat)
    requires n <= 8
    ensures Pow2(n) <= 256
    decreases 8 - n
  {
    if n < 8 {
      Pow2Byte(n + 1);
    } else {
      assert Pow2(8) == 256;
    }
  }

  function GetBytes(r0: Reader, count: nat): (res: (Option<seq<u8>>, Reader))
    ensures res.0.Some? ==> |res.0.value| == count
  {
    var r := Align(r0);
    if r.byte + count > |r.data| then (None, r.(error := true))
    else (Some(r.data[r.byte..r.byte + count]), r.(byte := r.byte + count))
  }

  function GetU8(r: Reader): (u8, Reader)
  {
    var (s, r1) := GetBytes(r, 1);
    (if s.Some? then s.value[0] else 0, r1)
  }

  function GetU16(r: Reader): (u16, Reader)
  {
    var (s, r1) := GetBytes(r, 2);
    (if s.Some? then FromBe16(s.value[0], s.value[1]) else 0, r1)
  }

  function GetU32(r: Reader): (u32, Reader)
  {
    var (s, r1) := GetBytes(r, 4);
    (if s.Some? then FromBe32(s.value[0], s.value[1], s.value[2], s.value[3]) else 0, r1)
  }

  // ---- Round trip of an arbitrary mixed sequence of writes ----

  datatype Field =
    | Bits(val: u8, n: nat)
    | U8(b: u8)
    | U16(h: u16)
    | U32(l: u32)
    | Bytes(s: seq<u8>)

  /** What callers may write: 1 to 8 bits, from a value that has no more. */
  ghost predicate Legal(f: Field) { f.Bits? ==> 1 <= f.n <= 8 && f.val < Pow2(f.n) }

  ghost function Put(w: Writer, f: Field): Writer
  {
    match f
    case Bits(val, n) => PutBits(w, val, n)
    case U8(b) => PutBytes(w, [b])
    case U16(h) => PutBytes(w, Be16(h))
    case U32(l) => PutBytes(w, Be32(l))
    case Bytes(s) => PutBytes(w, s)
  }

  /** Reading a field of the same kind and size as `f`; the value read takes its place. */
  ghost function Get(r: Reader, f: Field): (Field, Reader)
    requires Legal(f)
  {
    match f
    case Bits(_, n) => var (v, r1) := GetBits(r, n); (Bits(v, n), r1)
    case U8(_) => var (v, r1) := GetU8(r); (U8(v), r1)
    case U16(_) => var (v, r1) := GetU16(r); (U16(v), r1)
    case U32(_) => var (v, r1) := GetU32(r); (U32(v), r1)
    case Bytes(s) =>
      var (v, r1) := GetBytes(r, |s|);
      (Bytes(if v.Some? then v.value else []), r1)
  }

  ghost predicate AllLegal(fs: seq<Field>) { forall i :: 0 <= i < |fs| ==> Legal(fs[i]) }

  ghost function PutAll(w: Writer, fs: seq<Field>): Writer
    decreases |fs|
  {
    if fs == [] then w else PutAll(Put(w, fs[0]), fs[1..])
  }

  ghost function GetAll(r: Reader, fs: seq<Field>): (seq<Field>, Reader)
    requires AllLegal(fs)
    decreases |fs|
  {
    if fs == [] then ([], r)
    else
      var (v, r1) := Get(r, fs[0]);
      var (vs, r2) := GetAll(r1, fs[1..]);
      ([v] + vs, r2)
  }

  /** `d` is a byte string that can still come out of writer `w`: it begins with the
      bytes already emitted, and the pending bits are the leading bits of the next byte. */
  ghost predicate Completes(d: seq<u8>, w: Writer)
  {
    && |w.pending| < 8
    && w.buf <= d
    && (w.pending != [] ==> |w.buf| < |d|)
    && forall i :: 0 <= i < |w.pending| ==> Bit(d[|w.buf|], 7 - i) == w.pending[i]
  }

  /** The reader over `d` that has consumed exactly the bits that writer `w` has produced. */
  ghost function InSync(w: Writer, d: seq<u8>): Reader
  {
    Reader(d, |w.buf|, |w.pending|, false)
  }

  lemma BitInSync(w: Writer, b: bit, d: seq<u8>)
    requires |w.pending| < 8
    requires Completes(d, PutBit(w, b))
    ensures Completes(d, w) && |w.buf| < |d| && Bit(d[|w.buf|], 7 - |w.pending|) == b
  {
    var w1 := PutBit(w, b);
    assert w.buf == w1.buf[..|w.buf|];
    var bs := w.pending + [b];
    forall i | 0 <= i < |bs|
      ensures Bit(d[|w.buf|], 7 - i) == bs[i]
    {
      if |w.pending| == 7 {
        assert w1.buf[|w.buf|] == FromBits(bs);
        BitOfFromBits(bs, i);
      }
    }
    forall i | 0 <= i < |w.pending|
      ensures Bit(d[|w.buf|], 7 - i) == w.pending[i]
    {
      assert bs[i] == w.pending[i];
    }
    assert bs[|w.pending|] == b;
  }

  lemma GetSeqStep(r: Reader, b: bit, r1: Reader, bs: seq<bit>, r2: Reader)
    requires GetBit(r) == (Some(b), r1) && GetSeq(r1, |bs|) == (Some(bs), r2)
    ensures GetSeq(r, 1 + |bs|) == (Some([b] + bs), r2)
  {
  }

  lemma {:induction false} SeqInSync(w: Writer, bs: seq<bit>, d: seq<u8>)
    requires |w.pending| < 8
    requires Completes(d, PutSeq(w, bs))
    ensures Completes(d, w)
    ensures GetSeq(InSync(w, d), |bs|) == (Some(bs), InSync(PutSeq(w, bs), d))
    decreases |bs|
  {
    if bs != [] {
      var w1, w2 := PutBit(w, bs[0]), PutSeq(w, bs);
      SeqInSync(w1, bs[1..], d);
      BitInSync(w, bs[0], d);
      GetSeqStep(InSync(w, d), bs[0], InSync(w1, d), bs[1..], InSync(w2, d));
      assert bs == [bs[0]] + bs[1..];
    }
  }

  lemma {:induction false} LowBitsSpell(x: nat, m: nat, n: nat)
    requires m <= n && x < Pow2(n)
    ensures FromBits(LowBits(x, n)[..n - m]) == Shr(x, m)
    decreases n - m
  {
    if m == n {
      ShrBelow(x, n, n);
    } else {
      LowBitsSpell(x, m + 1, n);
      LowBitsAt(x, n, n - 1 - m);
      var bs := LowBits(x, n)[..n - m];
      assert bs[..|bs| - 1] == LowBits(x, n)[..n - (m + 1)];
    }
  }

  lemma {:induction false} LowBitsAt(x: nat, n: nat, i: nat)
    requires i < n
    ensures LowBits(x, n)[i] == Bit(x, n - 1 - i)
  {
    if i > 0 {
      LowBitsAt(x, n - 1, i - 1);
    }
  }

  lemma BytesInSync(w: Writer, s: seq<u8>, d: seq<u8>)
    requires |w.pending| < 8
    requires Completes(d, PutBytes(w, s))
    ensures Completes(d, w)
    ensures GetBytes(InSync(w, d), |s|) == (Some(s), InSync(PutBytes(w, s), d))
  {
    var f := Flush(w).buf;
    assert f == PutBytes(w, s).buf[..|f|] == d[..|f|];
    assert PutBytes(w, s).buf[|f|..] == s == d[|f|..|f| + |s|];
    assert w.buf == f[..|w.buf|] == d[..|w.buf|];
    var bs := w.pending + seq(8 - |w.pending|, i => 0);
    forall i | 0 <= i < |w.pending|
      ensures Bit(d[|w.buf|], 7 - i) == w.pending[i]
    {
      assert d[|w.buf|] == f[|w.buf|] == FromBits(bs);
      BitOfFromBits(bs, i);
    }
  }

  lemma FieldInSync(w: Writer, f: Field, d: seq<u8>)
    requires Legal(f) && |w.pending| < 8
    requires Completes(d, Put(w, f))
    ensures Completes(d, w)
    ensures Get(InSync(w, d), f) == (f, InSync(Put(w, f), d))
  {
    match f
    case Bits(val, n) =>
      SeqInSync(w, LowBits(val, n), d);
      LowBitsSpell(val, 0, n);
      assert LowBits(val, n)[..n] == LowBits(val, n);
    case U8(b) => BytesInSync(w, [b], d);
    case U16(h) => BytesInSync(w, Be16(h), d); Be16RoundTrip(h);
    case U32(l) => BytesInSync(w, Be32(l), d); Be32RoundTrip(l);
    case Bytes(s) => BytesInSync(w, s, d);
  }

  lemma {:induction false} PutSeqPending(w: Writer, bs: seq<bit>)
    requires |w.pending| < 8
    ensures |PutSeq(w, bs).pending| < 8
    decreases |bs|
  {
    if bs != [] {
      PutSeqPending(PutBit(w, bs[0]), bs[1..]);
    }
  }

  lemma {:induction false} FieldsInSync(w: Writer, fs: seq<Field>, d: seq<u8>)
    requires AllLegal(fs) && |w.pending| < 8
    requires Completes(d, PutAll(w, fs))
    ensures Completes(d, w)
    ensures GetAll(InSync(w, d), fs) == (fs, InSync(PutAll(w, fs), d))
    decreases |fs|
  {
    if fs != [] {
      if fs[0].Bits? {
        PutSeqPending(w, LowBits(fs[0].val, fs[0].n));
      }
      FieldsInSync(Put(w, fs[0]), fs[1..], d);
      FieldInSync(w, fs[0], d);
      assert fs == [fs[0]] + fs[1..];
    }
  }

  lemma {:induction false} PutAllPending(w: Writer, fs: seq<Field>)
    requires |w.pending| < 8
    ensures |PutAll(w, fs).pending| < 8
    decreases |fs|
  {
    if fs != [] {
      if fs[0].Bits? {
        PutSeqPending(w, LowBits(fs[0].val, fs[0].n));
      }
      PutAllPending(Put(w, fs[0]), fs[1..]);
    }
  }

  /** Main result: whatever mixture of bit and byte fields is written and then flushed,
      reading the same kinds back returns the same values, reports no error, and leaves
      the reader at the end of the data once it is aligned. */
  lemma BitstreamRoundTrip(fs: seq<Field>)
    requires AllLegal(fs)
    ensures var d := Flush(PutAll(EMPTY_WRITER, fs)).buf;
            var (vs, r) := GetAll(NewReader(d), fs);
            vs == fs && !r.error && Align(r).byte == |d|
  {
    var w := PutAll(EMPTY_WRITER, fs);
    PutAllPending(EMPTY_WRITER, fs);
    assert PutBytes(w, []).buf == Flush(w).buf;
    BytesInSync(w, [], Flush(w).buf);
    FieldsInSync(EMPTY_WRITER, fs, Flush(w).buf);
  }

  // ---- Byte-aligned sections, as the codec lays them out ----

  /** A group of bit fields written from a byte boundary and flushed. */
  ghost function BitGroup(fs: seq<Field>): seq<u8>
  {
    Flush(PutAll(EMPTY_WRITER, fs)).buf
  }

  /** The reader stands on a byte boundary with the bytes `s` next. */
  ghost predicate Has(r: Reader, s: seq<u8>)
  {
    !r.error && r.bit == 0 && r.byte + |s| <= |r.data| && r.data[r.byte..r.byte + |s|] == s
  }

  function Skip(r: Reader, n: nat): Reader { r.(byte := r.byte + n) }

  lemma HasSplit(r: Reader, a: seq<u8>, b: seq<u8>)
    requires Has(r, a + b)
    ensures Has(r, a) && Has(Skip(r, |a|), b)
    ensures Skip(Skip(r, |a|), |b|) == Skip(r, |a + b|)
  {
    var s := r.data[r.byte..r.byte + |a + b|];
    assert r.data[r.byte..r.byte + |a|] == s[..|a|] == a;
    assert r.data[r.byte + |a|..r.byte + |a| + |b|] == s[|a|..] == b;
  }

  lemma {:induction false} PutSeqPrefix(p: seq<u8>, w: Writer, bs: seq<bit>)
    ensures PutSeq(Writer(p + w.buf, w.pending), bs)
         == Writer(p + PutSeq(w, bs).buf, PutSeq(w, bs).pending)
    decreases |bs|
  {
    if bs != [] {
      var w1, q := PutBit(w, bs[0]), PutBit(Writer(p + w.buf, w.pending), bs[0]);
      assert q.buf == p + w1.buf;
      PutSeqPrefix(p, w1, bs[1..]);
    }
  }

  lemma {:induction false} PutAllPrefix(p: seq<u8>, w: Writer, fs: seq<Field>)
    requires forall f :: f in fs ==> f.Bits?
    ensures PutAll(Writer(p + w.buf, w.pending), fs)
         == Writer(p + PutAll(w, fs).buf, PutAll(w, fs).pending)
    decreases |fs|
  {
    if fs != [] {
      PutSeqPrefix(p, w, LowBits(fs[0].val, fs[0].n));
      PutAllPrefix(p, Put(w, fs[0]), fs[1..]);
    }
  }

  /** Writing a bit group at a byte boundary appends its bytes. */
  lemma BitGroupWrite(p: seq<u8>, fs: seq<Field>)
    requires forall f :: f in fs ==> f.Bits?
    ensures Flush(PutAll(Writer(p, []), fs)) == Writer(p + BitGroup(fs), [])
  {
    PutAllPrefix(p, EMPTY_WRITER, fs);
    assert p + [] == p;
  }

  /** Reading a bit group back from a byte boundary: the values, and the reader, once
      aligned, stands behind the group. */
  lemma BitGroupRead(r: Reader, fs: seq<Field>)
    requires AllLegal(fs) && forall f :: f in fs ==> f.Bits?
    requires Has(r, BitGroup(fs))
    ensures GetAll(r, fs).0 == fs && !GetAll(r, fs).1.error
    ensures Align(GetAll(r, fs).1) == Skip(r, |BitGroup(fs)|)
  {
    var p, d := r.data[..r.byte], r.data;
    var wp, e := Writer(p, []), p + BitGroup(fs);
    var w := PutAll(wp, fs);
    BitGroupWrite(p, fs);
    PutAllPending(wp, fs);
    assert PutBytes(w, []).buf == e == d[..|e|];
    BytesInSync(w, [], d);
    FieldsInSync(wp, fs, d);
  }

  // ---- At the end of the data ----

  /** The bits not read yet. */
  ghost function Left(r: Reader): int { 8 * (|r.data| - r.byte) - r.bit }

  lemma {:induction false} SeqRunsOut(r: Reader, n: nat)
    requires r.bit < 8 && 0 <= Left(r) && !r.error
    ensures GetSeq(r, n).0.Some? <==> n <= Left(r)
    ensures GetSeq(r, n).1.error <==> n > Left(r)
    ensures n <= Left(r) ==> Left(GetSeq(r, n).1) == Left(r) - n
    decreases n
  {
    if 0 < n && 0 < Left(r) {
      SeqRunsOut(GetBit(r).1, n - 1);
    }
  }

  /** Reading bits fails, with the value 0, if and only if fewer are left. */
  lemma BitsRunOut(r: Reader, n: nat)
    requires r.bit < 8 && 0 <= Left(r) && !r.error && n <= 8
    ensures GetBits(r, n).1.error <==> n > Left(r)
    ensures n > Left(r) ==> GetBits(r, n).0 == 0
  {
    SeqRunsOut(r, n);
  }

  /** Bytes are read from the next byte boundary, and fail if and only if fewer are left there. */
  lemma BytesRunOut(r: Reader, count: nat)
    requires r.bit < 8 && !r.error
    ensures var at := if r.bit == 0 then r.byte else r.byte + 1;
      if at + count <= |r.data| then
        GetBytes(r, count) == (Some(r.data[at..at + count]), Reader(r.data, at + count, 0, false))
      else GetBytes(r, count) == (None, Reader(r.data, at, 0, true))
  {
  }
  lemma BytesRead(r: Reader, s: seq<u8>)
    requires Has(r, s)
    ensures GetBytes(r, |s|) == (Some(s), Skip(r, |s|))
  {
  }

  lemma U8Read(r: Reader, v: u8)
    requires Has(r, [v])
    ensures GetU8(r) == (v, Skip(r, 1))
  {
    BytesRead(r, [v]);
  }

  lemma U16Read(r: Reader, v: u16)
    requires Has(r, Be16(v))
    ensures GetU16(r) == (v, Skip(r, 2))
  {
    BytesRead(r, Be16(v));
    Be16RoundTrip(v);
  }

  lemma U32Read(r: Reader, v: u32)
    requires Has(r, Be32(v))
    ensures GetU32(r) == (v, Skip(r, 4))
  {
    BytesRead(r, Be32(v));
    Be32RoundTrip(v);
  }

  // ---- The objects ----

  class BitstreamWriter {
    var buf: seq<u8>
    var bitBuf: u8
    var bitPos: nat
    ghost var pending: seq<bit>  // the bits held in bitBuf

    ghost predicate Valid()
      reads this
    {
      bitPos == |pending| < 8 && bitBuf == FromBits(pending)
    }

    ghost function Value(): Writer
      reads this
    {
      Writer(buf, pending)
    }

    constructor ()
      ensures Valid() && Value() == EMPTY_WRITER
    {
      buf, bitBuf, bitPos, pending := [], 0, 0, [];
    }

    method FlushBits()
      requires Valid()
      modifies this
      ensures Valid() && Value() == Flush(old(Value()))
    {
      if bitPos > 0 {
        FromBitsZeros(pending, 8 - bitPos);
        assert ByteOf(pending + seq(8 - bitPos, i => 0)) == Shl(bitBuf, 8 - bitPos);
        bitBuf := Shl(bitBuf, 8 - bitPos);
        buf := buf + [bitBuf];
        bitBuf, bitPos, pending := 0, 0, [];
      }
    }

    method WriteU8(val: u8)
      requires Valid()
      modifies this
      ensures Valid() && Value() == PutBytes(old(Value()), [val])
    {
      FlushBits();
      buf := buf + [val];
    }

    method WriteU16(val: u16)
      requires Valid()
      modifies this
      ensures Valid() && Value() == PutBytes(old(Value()), Be16(val))
    {
      FlushBits();
      buf := buf + [val / 0x100];
      buf := buf + [val % 0x100];
    }

    method WriteU32(val: u32)
      requires Valid()
      modifies this
      ensures Valid() && Value() == PutBytes(old(Value()), Be32(val))
    {
      FlushBits();
      buf := buf + [val / 0x100_0000];
      buf := buf + [val / 0x1_0000 % 0x100];
      buf := buf + [val / 0x100 % 0x100];
      buf := buf + [val % 0x100];
    }

    method WriteBytes(data: seq<u8>)
      requires Valid()
      modifies this
      ensures Valid() && Value() == PutBytes(old(Value()), data)
    {
      FlushBits();
      buf := buf + data;
    }

    method WriteBits(val: u8, numBits: nat)
      requires Valid() && numBits <= 8
      modifies this
      ensures Valid() && Value() == PutBits(old(Value()), val, numBits)
    {
      var i: nat := numBits;
      ghost var w0 := Value();
      while i > 0
        invariant i <= numBits && Valid()
        invariant PutSeq(Value(), LowBits(val, i)) == PutBits(w0, val, numBits)
      {
        ghost var w := Value();
        i := i - 1;
        pending := pending + [Bit(val, i)];
        assert pending[..bitPos] == w.pending;
        Pow2Byte(bitPos + 1);
        bitBuf := 2 * bitBuf + Bit(val, i);
        bitPos := bitPos + 1;
        if bitPos == 8 {
          buf := buf + [bitBuf];
          bitBuf, bitPos, pending := 0, 0, [];
        }
        assert Value() == PutBit(w, Bit(val, i));
        assert LowBits(val, i + 1)[1..] == LowBits(val, i);
      }
    }
  }

  class BitstreamReader {
    const data: seq<u8>
    var pos: nat
    var bitBuf: u8
    var bitPos: nat
    var error: bool

    ghost predicate Valid()
      reads this
    {
      pos <= |data| && bitPos < 8 && (bitPos > 0 ==> pos > 0 && bitBuf == data[pos - 1])
    }

    ghost function Value(): Reader
      reads this
      requires Valid()
    {
      if bitPos == 0 then Reader(data, pos, 0, error) else Reader(data, pos - 1, 8 - bitPos, error)
    }

    constructor (data: seq<u8>)
      ensures Valid() && Value() == NewReader(data) && this.data == data
    {
      this.data := data;
      pos, bitBuf, bitPos, error := 0, 0, 0, false;
    }

    method AlignToByte()
      requires Valid()
      modifies this
      ensures Valid() && Value() == Align(old(Value()))
    {
      bitPos := 0;
    }

    method ReadU8() returns (v: u8)
      requires Valid()
      modifies this
      ensures Valid() && (v, Value()) == GetU8(old(Value()))
    {
      AlignToByte();
      if pos >= |data| {
        error := true;
        return 0;
      }
      v := data[pos];
      pos := pos + 1;
    }

    method ReadU16() returns (v: u16)
      requires Valid()
      modifies this
      ensures Valid() && (v, Value()) == GetU16(old(Value()))
    {
      AlignToByte();
      if pos + 2 > |data| {
        error := true;
        return 0;
      }
      v := FromBe16(data[pos], data[pos + 1]);
      pos := pos + 2;
    }

    method ReadU32() returns (v: u32)
      requires Valid()
      modifies this
      ensures Valid() && (v, Value()) == GetU32(old(Value()))
    {
      AlignToByte();
      if pos + 4 > |data| {
        error := true;
        return 0;
      }
      v := FromBe32(data[pos], data[pos + 1], data[pos + 2], data[pos + 3]);
      pos := pos + 4;
    }

    /** None stands for a destination left untouched. */
    method ReadBytes(count: nat) returns (v: Option<seq<u8>>)
      requires Valid()
      modifies this
      ensures Valid() && (v, Value()) == GetBytes(old(Value()), count)
    {
      AlignToByte();
      if pos + count > |data| {
        error := true;
        return None;
      }
      v := Some(data[pos..pos + count]);
      pos := pos + count;
    }

    static method AppendBit(ghost got: seq<bit>, result: nat, b: bit) returns (v: u8)
      requires |got| < 8 && result == FromBits(got)
      ensures v == FromBits(got + [b])
    {
      assert (got + [b])[..|got|] == got;
      Pow2Byte(|got| + 1);
      v := 2 * result + b;
    }

    /** The body of readBits' loop. */
    method ReadBit() returns (b: Option<bit>)
      requires Valid()
      modifies this
      ensures Valid() && (b, Value()) == GetBit(old(Value()))
    {
      if bitPos == 0 {
        if pos >= |data| {
          error := true;
          return None;
        }
        bitBuf := data[pos];
        pos := pos + 1;
        bitPos := 8;
      }
      bitPos := bitPos - 1;
      b := Some(Bit(bitBuf, bitPos));
    }

    /** readBits' loop; false when the data ends first. */
    method Collect(numBits: nat) returns (ok: bool, result: u8, ghost got: seq<bit>)
      requires Valid() && numBits <= 8
      modifies this
      ensures Valid() && (if ok then Some(got) else None, Value()) == GetSeq(old(Value()), numBits)
      ensures ok ==> result == FromBits(got)
    {
      result, got := 0, [];
      var i := 0;
      ghost var r := Value();
      ghost var whole := GetSeq(r, numBits);
      ThenNothing(whole);
      while i < numBits
        invariant 0 <= i <= numBits && |got| == i && result == FromBits(got)
        invariant Valid() && Value() == r
        invariant Then(got, GetSeq(r, numBits - i)) == whole
      {
        var b := ReadBit();
        if b == None {
          return false, 0, got;
        }
        ThenStep(got, r, numBits - i);
        r := Value();
        result := AppendBit(got, result, b.value);
        got := got + [b.value];
        i := i + 1;
      }
      ok := true;
      assert got + [] == got;
    }

    method ReadBits(numBits: nat) returns (result: u8)
      requires Valid() && numBits <= 8
      modifies this
      ensures Valid() && (result, Value()) == GetBits(old(Value()), numBits)
    {
      ghost var got;
      var ok;
      ok, result, got := Collect(numBits);
      if !ok {
        return 0;
      }
    }
  }
}
