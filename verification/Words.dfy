/** Fixed-width integers of the C++ sources, modelled as ranges of `int`, and the
    conversions between them.  Every conversion that can lose bits is written out. */
module Words {

  type u8 = x: int | 0 <= x < 0x100
  type u16 = x: int | 0 <= x < 0x1_0000
  type u32 = x: int | 0 <= x < 0x1_0000_0000
  type i16 = x: int | -0x8000 <= x < 0x8000

  datatype Option<+T> = None | Some(value: T)

  /** Outcome of decoding untrusted bytes.  `Unspecified` marks the inputs on which the C++
      reads or writes outside a buffer, or uses scratch left by an earlier call. */
  datatype Outcome<+T> = Done(value: T) | Rejected | Unspecified
  {
    predicate IsFailure() { !Done? }
    function PropagateFailure<U>(): Outcome<U>
      requires IsFailure()
    {
      if Rejected? then Rejected else Unspecified
    }

    function Extract(): T
      requires Done?
    {
      value
    }
  }

  /** static_cast to a narrower unsigned or signed type: reduction modulo 2^n. */
  function ToU8(x: int): u8 { x % 0x100 }
  function ToU16(x: int): u16 { x % 0x1_0000 }
  function ToU32(x: int): u32 { x % 0x1_0000_0000 }
  function ToI16(x: int): i16 { (x + 0x8000) % 0x1_0000 - 0x8000 }
  function ToI8(x: int): int { (x + 0x80) % 0x100 - 0x80 }

  /** C++ integer division: truncation toward zero. */
  function TruncDiv(a: int, b: int): int
    requires b > 0
  {
    if a >= 0 then a / b else -((-a) / b)
  }

  function Min(a: int, b: int): int { if a <= b then a else b }
  function Max(a: int, b: int): int { if a >= b then a else b }
  ghost predicate Close(a: int, b: int, e: int) { -e <= a - b <= e }
  ghost predicate Within(s: seq<int>, bound: int) { forall i :: 0 <= i < |s| ==> -bound <= s[i] <= bound }
  function Abs(a: int): nat { if a >= 0 then a else -a }

  function Pow2(k: nat): (p: nat)
    ensures p > 0
  {
    if k == 0 then 1 else 2 * Pow2(k - 1)
  }

  /** Big-endian (network order) encodings. */
  function Be16(v: u16): seq<u8> { [v / 0x100, v % 0x100] }
  function Be32(v: u32): seq<u8> {
    [v / 0x100_0000, v / 0x1_0000 % 0x100, v / 0x100 % 0x100, v % 0x100]
  }
  function FromBe16(a: u8, b: u8): u16 { a * 0x100 + b }
  function FromBe32(a: u8, b: u8, c: u8, d: u8): u32 {
    a * 0x100_0000 + b * 0x1_0000 + c * 0x100 + d
  }

  lemma Be16RoundTrip(v: u16)
    ensures FromBe16(Be16(v)[0], Be16(v)[1]) == v
  {
  }

  lemma Be32RoundTrip(v: u32)
    ensures FromBe32(Be32(v)[0], Be32(v)[1], Be32(v)[2], Be32(v)[3]) == v
  {
    var hi, lo := v / 0x1_0000, v % 0x1_0000;
    assert v / 0x100_0000 == hi / 0x100;
    assert v / 0x1_0000 % 0x100 == hi % 0x100;
    assert v / 0x100 % 0x100 == lo / 0x100 by {
      assert v / 0x100 == hi * 0x100 + lo / 0x100;
    }
    assert v % 0x100 == lo % 0x100;
  }

  /** A word found at position i of a byte string. */
  lemma WordAt(s: seq<u8>, i: nat, v: u32)
    requires i + 4 <= |s| && s[i..i + 4] == Be32(v)
    ensures FromBe32(s[i], s[i + 1], s[i + 2], s[i + 3]) == v
  {
    Be32RoundTrip(v);
    var b := s[i..i + 4];
    assert b[0] == s[i] && b[1] == s[i + 1] && b[2] == s[i + 2] && b[3] == s[i + 3];
  }

  lemma HalfWordAt(s: seq<u8>, i: nat, v: u16)
    requires i + 2 <= |s| && s[i..i + 2] == Be16(v)
    ensures FromBe16(s[i], s[i + 1]) == v
  {
    Be16RoundTrip(v);
    var b := s[i..i + 2];
    assert b[0] == s[i] && b[1] == s[i + 1];
  }

  lemma Regroup<T>(a: seq<T>, b: seq<T>, c: seq<T>)
    ensures a + b + c == a + (b + c)
  {
  }
}
