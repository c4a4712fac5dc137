/** The single-producer single-consumer queue of src/core/ring_buffer.h: first as one thread
    sees it, then as the interleaved atomic steps of two threads. */
module RingBuffers {
  import opened Words
  import opened Arithmetic

  // ---- Masks ----

  /** What the static_assert of the source demands of Capacity. */
  predicate IsPower(c: nat) { c == 1 || (c > 1 && c % 2 == 0 && IsPower(c / 2)) }

  /** The bitwise and of two unsigned numbers. */
  function And(a: nat, b: nat): nat
  {
    if a == 0 || b == 0 then 0 else 2 * And(a / 2, b / 2) + a % 2 * (b % 2)
  }

  /** Masking with Capacity - 1 is reduction modulo the capacity. */
  lemma {:induction false} MaskIsMod(x: nat, c: nat)
    requires IsPower(c)
    ensures And(x, c - 1) == x % c
    decreases c
  {
    if c == 1 {
      assert And(x, 0) == 0;
    } else {
      MaskIsMod(x / 2, c / 2);
      MaskStep(x, c, c / 2);
    }
  }

  lemma MaskStep(x: nat, c: nat, half: nat)
    requires half > 0 && c == 2 * half && And(x / 2, half - 1) == x / 2 % half
    ensures And(x, c - 1) == x % c
  {
    assert (c - 1) / 2 == half - 1 && (c - 1) % 2 == 1;
    HalfMod(x, half);
    if x == 0 {
      DivUnique(0, c, 0, 0);
    } else {
      AndUnfold(x, c - 1);
    }
  }

  lemma AndUnfold(a: nat, b: nat)
    requires a > 0 && b > 0
    ensures And(a, b) == 2 * And(a / 2, b / 2) + a % 2 * (b % 2)
  {
  }

  lemma HalfMod(x: nat, c: nat)
    requires c > 0
    ensures x % (2 * c) == 2 * (x / 2 % c) + x % 2
  {
    var q, r := x / 2 / c, x / 2 % c;
    assert x / 2 == q * c + r;
    assert x == q * (2 * c) + (2 * r + x % 2);
    DivUnique(x, 2 * c, q, 2 * r + x % 2);
  }

  lemma {:induction false} PowSum(a: nat, b: nat)
    ensures Pow2(a + b) == Pow2(a) * Pow2(b)
  {
    if a > 0 {
      PowSum(a - 1, b);
    }
  }

  lemma PowerOfSizeT()
    ensures Pow2(64) == SIZE_T
  {
    assert Pow2(4) == 16;
    PowSum(4, 4);
    PowSum(8, 8);
    PowSum(16, 16);
    PowSum(32, 32);
  }

  lemma {:induction false} PowerDivides(c: nat, k: nat) returns (d: nat)
    requires IsPower(c) && c <= Pow2(k)
    ensures c * d == Pow2(k)
    decreases c
  {
    if c == 1 {
      d := Pow2(k);
    } else {
      d := PowerDivides(c / 2, k - 1);
      assert c * d == 2 * (c / 2 * d);
    }
  }

  const SIZE_T: nat := 0x1_0000_0000_0000_0000

  /** (h - t) & kMask, with the subtraction in size_t. */
  function Distance(h: nat, t: nat, capacity: nat): nat
    requires capacity > 0
  {
    And((h - t) % SIZE_T, capacity - 1)
  }

  /** The masked difference is the distance from t up to h around the ring. */
  lemma DistanceIs(h: nat, t: nat, capacity: nat)
    requires IsPower(capacity) && capacity <= SIZE_T && h < capacity && t < capacity
    ensures Distance(h, t, capacity) == if h >= t then h - t else h - t + capacity
  {
    PowerOfSizeT();
    var d := PowerDivides(capacity, 64);
    MaskIsMod((h - t) % SIZE_T, capacity);
    WrappedDifference(h, t, capacity, d);
  }

  lemma WrappedDifference(h: nat, t: nat, capacity: nat, d: nat)
    requires h < capacity && t < capacity && capacity * d == SIZE_T
    ensures (h - t) % SIZE_T % capacity == if h >= t then h - t else h - t + capacity
  {
    if h < t {
      assert d > 0;
      MulMonotone(1, d, capacity);
      DivUnique(h - t, SIZE_T, -1, h - t + SIZE_T);
      assert h - t + capacity * d == (d - 1) * capacity + (h - t + capacity);
      DivUnique(h - t + SIZE_T, capacity, d - 1, h - t + capacity);
    } else {
      MulMonotone(1, d, capacity);
      DivUnique(h - t, SIZE_T, 0, h - t);
      DivUnique(h - t, capacity, 0, h - t);
    }
  }

  // ---- One thread ----

  /** The slots from t up to h, around the end. */
  function Held<T>(s: seq<T>, h: nat, t: nat): seq<T>
    requires h < |s| && t < |s|
  {
    if t <= h then s[t..h] else s[t..] + s[..h]
  }

  lemma HeldPush<T>(s: seq<T>, h: nat, t: nat, next: nat, x: T)
    requires h < |s| && t < |s| && next == (if h + 1 == |s| then 0 else h + 1)
    ensures next == t <==> |Held(s, h, t)| == |s| - 1
    ensures next != t ==> Held(s[h := x], next, t) == Held(s, h, t) + [x]
  {
  }

  lemma HeldPop<T>(s: seq<T>, h: nat, t: nat, next: nat)
    requires h < |s| && t < |s| && next == (if t + 1 == |s| then 0 else t + 1)
    ensures t == h <==> Held(s, h, t) == []
    ensures t != h ==> Held(s, h, t) == [s[t]] + Held(s, h, next)
  {
  }

  class RingBuffer<T(0)> {
    const storage: array<T>
    var head: nat
    var tail: nat

    ghost predicate Valid()
      reads this
    {
      IsPower(storage.Length) && storage.Length <= SIZE_T && head < storage.Length && tail < storage.Length
    }

    ghost function Contents(): (s: seq<T>)
      reads this, storage
      requires Valid()
    {
      Held(storage[..], head, tail)
    }

    constructor (capacity: nat, zero: T)
      requires IsPower(capacity) && capacity <= SIZE_T
      ensures Valid() && fresh(storage) && storage.Length == capacity && Contents() == []
    {
      storage := new T[capacity](_ => zero);
      head, tail := 0, 0;
    }

    method Push(item: T) returns (ok: bool)
      requires Valid()
      modifies this`head, storage
      ensures Valid() && (ok <==> |old(Contents())| < storage.Length - 1)
      ensures Contents() == if ok then old(Contents()) + [item] else old(Contents())
    {
      MaskIsMod(head + 1, storage.Length);
      NextMod(head, storage.Length);
      var next := And(head + 1, storage.Length - 1);
      HeldPush(storage[..], head, tail, next, item);
      if next == tail {
        return false;
      }
      ghost var before := storage[..];
      storage[head] := item;
      assert storage[..] == before[head := item];
      head := next;
      ok := true;
    }

    method Pop() returns (item: Option<T>)
      requires Valid()
      modifies this`tail
      ensures Valid() && (item == None <==> old(Contents()) == [])
      ensures item.Some? ==> old(Contents()) == [item.value] + Contents()
      ensures item == None ==> Contents() == old(Contents())
    {
      MaskIsMod(tail + 1, storage.Length);
      NextMod(tail, storage.Length);
      HeldPop(storage[..], head, tail, And(tail + 1, storage.Length - 1));
      if tail == head {
        return None;
      }
      item := Some(storage[tail]);
      tail := And(tail + 1, storage.Length - 1);
    }

    method Size() returns (n: nat)
      requires Valid()
      ensures n == |Contents()|
    {
      DistanceIs(head, tail, storage.Length);
      n := Distance(head, tail, storage.Length);
    }

    method IsEmpty() returns (empty: bool)
      requires Valid()
      ensures empty <==> Contents() == []
    {
      empty := head == tail;
    }
  }
}
