/** The queue of src/core/ring_buffer.h as two threads run it.  Each step is one access to
    shared memory.  An index is an atomic with the history of its stores; a thread's load of
    the other side's index may return any store not older than the last one it has seen. */
module SpscQueue {
  import opened Arithmetic

  datatype Producer<T> =
    | Resting
    | LoadedHead(item: T, head: nat)
    | Cleared(item: T, head: nat, next: nat)
    | Written(item: T, head: nat, next: nat)

  datatype Consumer<T> =
    | Waiting
    | LoadedTail(tail: nat)
    | Found(tail: nat)
    | Taken(item: T, tail: nat)

  /** producerView and consumerView are the positions in the other side's history last seen. */
  datatype State<T> = State(
    storage: seq<T>, heads: seq<nat>, tails: seq<nat>, producer: Producer<T>, consumer: Consumer<T>,
    producerView: nat, consumerView: nat, pushed: seq<T>, refused: nat, popped: seq<T>)

  datatype Step<T> =
    | StartPush(item: T)
    | LoadTail(seen: nat)      // acquire load; may find the queue full
    | WriteSlot
    | PublishHead              // release store
    | StartPop
    | LoadHead(seen: nat)      // acquire load; may find the queue empty
    | TakeSlot(left: T)        // moves the item out and leaves anything behind
    | PublishTail              // release store

  /** (i + 1) & kMask; RingBuffers.MaskIsMod says why the mask is a remainder. */
  function Next(i: nat, capacity: nat): nat
    requires capacity > 0
  {
    (i + 1) % capacity
  }

  function Last(s: seq<nat>): nat
    requires s != []
  {
    s[|s| - 1]
  }

  function Initial<T>(storage: seq<T>): State<T>
  {
    State(storage, [0], [0], Resting, Waiting, 0, 0, [], 0, [])
  }

  ghost predicate Shaped<T>(s: State<T>) { s.storage != [] && s.heads != [] && s.tails != [] }

  ghost predicate Enabled<T>(s: State<T>, a: Step<T>)
  {
    match a
    case StartPush(_) => s.producer.Resting?
    case LoadTail(seen) => s.producer.LoadedHead? && s.producerView <= seen < |s.tails|
    case WriteSlot => s.producer.Cleared?
    case PublishHead => s.producer.Written?
    case StartPop => s.consumer.Waiting?
    case LoadHead(seen) => s.consumer.LoadedTail? && s.consumerView <= seen < |s.heads|
    case TakeSlot(_) => s.consumer.Found?
    case PublishTail => s.consumer.Taken?
  }

  /** The step touches no slot outside the storage. */
  ghost predicate InBounds<T>(s: State<T>, a: Step<T>)
    requires Enabled(s, a)
  {
    match a
    case WriteSlot => s.producer.head < |s.storage|
    case TakeSlot(_) => s.consumer.tail < |s.storage|
    case _ => true
  }

  /** The item being pushed joins `pushed` when its index is published, the one being popped
      joins `popped` when the slot is given back. */
  function Apply<T>(s: State<T>, a: Step<T>): State<T>
    requires Shaped(s) && Enabled(s, a) && InBounds(s, a)
  {
    match a
    case StartPush(item) => s.(producer := LoadedHead(item, Last(s.heads)))
    case LoadTail(seen) =>
      var p := s.producer;
      var next := Next(p.head, |s.storage|);
      if next == s.tails[seen] then s.(producer := Resting, producerView := seen, refused := s.refused + 1)
      else s.(producer := Cleared(p.item, p.head, next), producerView := seen)
    case WriteSlot =>
      var p := s.producer;
      s.(storage := s.storage[p.head := p.item], producer := Written(p.item, p.head, p.next))
    case PublishHead =>
      s.(heads := s.heads + [s.producer.next], producer := Resting, pushed := s.pushed + [s.producer.item])
    case StartPop => s.(consumer := LoadedTail(Last(s.tails)))
    case LoadHead(seen) =>
      if s.consumer.tail == s.heads[seen] then s.(consumer := Waiting, consumerView := seen)
      else s.(consumer := Found(s.consumer.tail), consumerView := seen)
    case TakeSlot(left) =>
      s.(consumer := Taken(s.storage[s.consumer.tail], s.consumer.tail), storage := s.storage[s.consumer.tail := left])
    case PublishTail =>
      s.(tails := s.tails + [Next(s.consumer.tail, |s.storage|)], consumer := Waiting,
          popped := s.popped + [s.consumer.item])
  }

  // ---- The invariant ----

  ghost predicate History(h: seq<nat>, n: nat, capacity: nat)
    requires capacity > 0
  {
    |h| == n + 1 && forall k :: 0 <= k <= n ==> h[k] == k % capacity
  }

  /** The slot of the k-th item. */
  function Slot(k: nat, capacity: nat): (i: nat)
    requires capacity > 0
    ensures i < capacity
  {
    k % capacity
  }

  /** The first item still in the storage. */
  function Unread<T>(s: State<T>): nat { |s.popped| + (if s.consumer.Taken? then 1 else 0) }

  ghost predicate Stored<T>(s: State<T>)
    requires s.storage != []
  {
    forall k :: Unread(s) <= k < |s.pushed| ==> s.storage[Slot(k, |s.storage|)] == s.pushed[k]
  }

  /** What the producer has in hand; next is free as far as it has seen. */
  ghost predicate ProducerOk<T>(s: State<T>)
    requires s.storage != []
  {
    var n, c := |s.pushed|, |s.storage|;
    match s.producer
    case Resting => true
    case LoadedHead(_, head) => head == Slot(n, c)
    case Cleared(_, head, next) => head == Slot(n, c) && next == Slot(n + 1, c) && n + 1 - s.producerView < c
    case Written(item, head, next) =>
      head == Slot(n, c) && next == Slot(n + 1, c) && n + 1 - s.producerView < c && s.storage[Slot(n, c)] == item
  }

  ghost predicate ConsumerOk<T>(s: State<T>)
    requires s.storage != []
  {
    var m, c := |s.popped|, |s.storage|;
    match s.consumer
    case Waiting => true
    case LoadedTail(tail) => tail == Slot(m, c)
    case Found(tail) => tail == Slot(m, c) && m < s.consumerView
    case Taken(item, tail) => tail == Slot(m, c) && m < s.consumerView && m < |s.pushed| && item == s.pushed[m]
  }

  ghost predicate Inv<T>(s: State<T>)
  {
    && s.storage != []
    && History(s.heads, |s.pushed|, |s.storage|) && History(s.tails, |s.popped|, |s.storage|)
    && s.popped <= s.pushed
    && s.producerView <= |s.popped| <= s.consumerView <= |s.pushed|
    && |s.pushed| - s.producerView < |s.storage|
    && Stored(s) && ProducerOk(s) && ConsumerOk(s)
  }

  /** Different items less than a capacity apart lie in different slots. */
  lemma SlotsDiffer(j: nat, k: nat, capacity: nat)
    requires j < k < j + capacity
    ensures Slot(j, capacity) != Slot(k, capacity)
  {
    var a, b := j / capacity, k / capacity;
    if Slot(j, capacity) == Slot(k, capacity) {
      assert k - j == (b - a) * capacity;
      if b > a {
        MulMonotone(1, b - a, capacity);
        assert false;
      } else {
        MulMonotone(b - a, 0, capacity);
        assert false;
      }
    }
  }

  lemma InitialInv<T>(storage: seq<T>)
    requires storage != []
    ensures Inv(Initial(storage))
  {
    DivUnique(0, |storage|, 0, 0);
  }

  /** An index load whose value differs from the own index decides as the true counts do. */
  lemma SlotsEqual(j: nat, k: nat, capacity: nat)
    requires capacity > 0 && j <= k <= j + capacity
    ensures Slot(j, capacity) == Slot(k, capacity) <==> k == j || k == j + capacity
  {
    if j < k < j + capacity {
      SlotsDiffer(j, k, capacity);
    } else if k == j + capacity {
      ModShift(j, capacity);
    }
  }

  // ---- Every step keeps the invariant ----

  lemma StaysInBounds<T>(s: State<T>, a: Step<T>)
    requires Inv(s) && Enabled(s, a)
    ensures Shaped(s) && InBounds(s, a)
  {
  }

  /** The producer goes on only if, by what it saw, a slot is free: staleness errs to "full". */
  lemma LoadTailStep<T>(s: State<T>, seen: nat)
    requires Inv(s) && Enabled(s, LoadTail(seen))
    ensures Inv(Apply(s, LoadTail(seen)))
    ensures Apply(s, LoadTail(seen)).producer.Resting? <==> |s.pushed| - seen == |s.storage| - 1
  {
    var n, c := |s.pushed|, |s.storage|;
    NextMod(n, c);
    SlotsEqual(seen, n + 1, c);
  }

  /** The consumer goes on only if there is an unread item: staleness errs to "empty". */
  lemma LoadHeadStep<T>(s: State<T>, seen: nat)
    requires Inv(s) && Enabled(s, LoadHead(seen))
    ensures Inv(Apply(s, LoadHead(seen)))
    ensures Apply(s, LoadHead(seen)).consumer.Waiting? <==> seen == |s.popped|
  {
    SlotsEqual(|s.popped|, seen, |s.storage|);
  }

  lemma WriteSlotStep<T>(s: State<T>)
    requires Inv(s) && Enabled(s, WriteSlot)
    ensures Inv(Apply(s, WriteSlot))
  {
    var n, c, s' := |s.pushed|, |s.storage|, Apply(s, WriteSlot);
    forall k | Unread(s') <= k < n
      ensures s'.storage[Slot(k, c)] == s'.pushed[k]
    {
      SlotsDiffer(k, n, c);
    }
  }

  lemma PublishHeadStep<T>(s: State<T>)
    requires Inv(s) && Enabled(s, PublishHead)
    ensures Inv(Apply(s, PublishHead))
  {
  }

  lemma TakeSlotStep<T>(s: State<T>, left: T)
    requires Inv(s) && Enabled(s, TakeSlot(left))
    ensures Inv(Apply(s, TakeSlot(left)))
  {
    var m, c, s' := |s.popped|, |s.storage|, Apply(s, TakeSlot(left));
    assert s.storage[Slot(m, c)] == s.pushed[m];
    forall k | Unread(s') <= k < |s'.pushed|
      ensures s'.storage[Slot(k, c)] == s'.pushed[k]
    {
      SlotsDiffer(m, k, c);
    }
    if s.producer.Written? {
      SlotsDiffer(m, |s.pushed|, c);
    }
  }

  lemma PublishTailStep<T>(s: State<T>)
    requires Inv(s) && Enabled(s, PublishTail)
    ensures Inv(Apply(s, PublishTail))
  {
    NextMod(|s.popped|, |s.storage|);
  }

  lemma StepKeepsInv<T>(s: State<T>, a: Step<T>)
    requires Inv(s) && Enabled(s, a)
    ensures Inv(Apply(s, a))
  {
    match a
    case StartPush(_) =>
    case LoadTail(seen) => LoadTailStep(s, seen);
    case WriteSlot => WriteSlotStep(s);
    case PublishHead => PublishHeadStep(s);
    case StartPop =>
    case LoadHead(seen) => LoadHeadStep(s, seen);
    case TakeSlot(left) => TakeSlotStep(s, left);
    case PublishTail => PublishTailStep(s);
  }

  /** The two threads never touch one slot at the same time, so plain storage is enough. */
  lemma NoRace<T>(s: State<T>)
    requires Inv(s) && (s.producer.Cleared? || s.producer.Written?) && (s.consumer.Found? || s.consumer.Taken?)
    ensures s.producer.head != s.consumer.tail
  {
    SlotsDiffer(|s.popped|, |s.pushed|, |s.storage|);
  }

  /** The slot about to be written holds no unread item. */
  lemma NoOverwrite<T>(s: State<T>, k: nat)
    requires Inv(s) && s.producer.Cleared? && |s.popped| <= k < |s.pushed|
    ensures Slot(k, |s.storage|) != s.producer.head
  {
    SlotsDiffer(k, |s.pushed|, |s.storage|);
  }

  // ---- Whole runs ----

  ghost predicate IsRun<T>(states: seq<State<T>>, steps: seq<Step<T>>)
  {
    && |states| == |steps| + 1
    && forall i :: 0 <= i < |steps| ==> Follows(states[i], steps[i], states[i + 1])
  }

  ghost predicate Follows<T>(s: State<T>, a: Step<T>, s': State<T>)
  {
    Shaped(s) && Enabled(s, a) && (InBounds(s, a) ==> s' == Apply(s, a))
  }

  lemma {:induction false} RunKeepsInv<T>(storage: seq<T>, states: seq<State<T>>, steps: seq<Step<T>>, i: nat)
    requires storage != [] && IsRun(states, steps) && states[0] == Initial(storage) && i <= |steps|
    ensures Inv(states[i]) && |states[i].storage| == |storage|
  {
    if i == 0 {
      InitialInv(storage);
    } else {
      RunKeepsInv(storage, states, steps, i - 1);
      assert Follows(states[i - 1], steps[i - 1], states[i]);
      StepKeepsInv(states[i - 1], steps[i - 1]);
    }
  }

  /** Main result: under every interleaving and every stale load, what was popped is a prefix of
      what was pushed, and never more than Capacity - 1 items are held. */
  lemma FirstInFirstOut<T>(storage: seq<T>, states: seq<State<T>>, steps: seq<Step<T>>, i: nat)
    requires storage != [] && IsRun(states, steps) && states[0] == Initial(storage) && i <= |steps|
    ensures states[i].popped <= states[i].pushed
    ensures |states[i].pushed| - |states[i].popped| <= |storage| - 1
  {
    RunKeepsInv(storage, states, steps, i);
  }

  // ---- size() and empty() ----

  /** size() as a thread sees it that has read store h of head and store t of tail. */
  function SizeSeen<T>(s: State<T>, h: nat, t: nat): nat
    requires Shaped(s) && h < |s.heads| && t < |s.tails|
  {
    (s.heads[h] - s.tails[t]) % |s.storage|
  }

  lemma Modular(h: nat, t: nat, c: nat)
    requires c > 0
    ensures (h % c - t % c) % c == (h - t) % c
  {
    var d := h % c - t % c;
    assert h - t == (h / c - t / c) * c + d;
    assert d == d / c * c + d % c;
    assert h - t == (h / c - t / c + d / c) * c + d % c by {
      assert (h / c - t / c + d / c) * c == (h / c - t / c) * c + d / c * c;
    }
    DivUnique(h - t, c, h / c - t / c + d / c, d % c);
  }

  /** It is the difference of the counts exactly when that difference is a possible size. */
  lemma SizeSeenIs<T>(s: State<T>, h: nat, t: nat)
    requires Inv(s) && h < |s.heads| && t < |s.tails|
    ensures SizeSeen(s, h, t) == h - t <==> 0 <= h - t < |s.storage|
  {
    var c := |s.storage|;
    Modular(h, t, c);
    if 0 <= h - t < c {
      DivUnique(h - t, c, 0, h - t);
    }
  }

  /** Seen by the producer, whose own index is exact, size() is at least the true size; seen by
      the consumer it is at most the true size. */
  lemma SizeBySide<T>(s: State<T>, h: nat, t: nat)
    requires Inv(s)
    requires s.consumerView <= h < |s.heads| && s.producerView <= t < |s.tails|
    ensures |s.pushed| - |s.popped| <= SizeSeen(s, |s.pushed|, t) == |s.pushed| - t <= |s.storage| - 1
    ensures SizeSeen(s, h, |s.popped|) == h - |s.popped| <= |s.pushed| - |s.popped|
  {
    SizeSeenIs(s, |s.pushed|, t);
    SizeSeenIs(s, h, |s.popped|);
  }

  /** A third thread may read head before, and tail after, one item went through: it then sees
      Capacity - 1 items in a queue that never held more than one. */
  lemma BystanderIsWrong<T>(s: State<T>)
    requires Inv(s) && |s.pushed| == |s.popped| == 1
    ensures SizeSeen(s, 0, 1) == |s.storage| - 1
  {
    var c := |s.storage|;
    Modular(0, 1, c);
    DivUnique(-1, c, -1, c - 1);
  }

  /** One item pushed and popped, step by step. */
  function OneItem<T>(item: T, left: T): (steps: seq<Step<T>>)
  {
    [StartPush(item), LoadTail(0), WriteSlot, PublishHead, StartPop, LoadHead(1), TakeSlot(left), PublishTail]
  }

  lemma PushOne<T>(storage: seq<T>, item: T, left: T) returns (states: seq<State<T>>)
    requires |storage| >= 2
    ensures |states| == 5 && states[0] == Initial(storage)
    ensures forall i :: 0 <= i < 4 ==> Follows(states[i], OneItem(item, left)[i], states[i + 1])
    ensures states[4] == State(storage[0 := item], [0, 1], [0], Resting, Waiting, 0, 0, [item], 0, [])
  {
    DivUnique(1, |storage|, 0, 1);
    var s0 := Initial(storage);
    var s1 := Apply(s0, StartPush(item));
    var s2 := Apply(s1, LoadTail(0));
    assert s2 == s0.(producer := Cleared(item, 0, 1));
    var s3 := Apply(s2, WriteSlot);
    var s4 := Apply(s3, PublishHead);
    states := [s0, s1, s2, s3, s4];
  }

  lemma PopOne<T>(storage: seq<T>, item: T, left: T, s4: State<T>) returns (states: seq<State<T>>)
    requires |storage| >= 2 && s4 == State(storage[0 := item], [0, 1], [0], Resting, Waiting, 0, 0, [item], 0, [])
    ensures |states| == 5 && states[0] == s4
    ensures forall i :: 0 <= i < 4 ==> Follows(states[i], OneItem(item, left)[4 + i], states[i + 1])
    ensures |states[4].pushed| == |states[4].popped| == 1
  {
    var s5 := Apply(s4, StartPop);
    var s6 := Apply(s5, LoadHead(1));
    var s7 := Apply(s6, TakeSlot(left));
    var s8 := Apply(s7, PublishTail);
    states := [s4, s5, s6, s7, s8];
  }

  /** That state is reached, in every queue with room for an item: after one push and one pop a
      bystander can be told Capacity - 1. */
  lemma BystanderIsMisled<T>(storage: seq<T>, item: T, left: T) returns (states: seq<State<T>>)
    requires |storage| >= 2
    ensures IsRun(states, OneItem(item, left)) && states[0] == Initial(storage)
    ensures var s := states[8]; Inv(s) && |s.heads| == |s.tails| == 2 && SizeSeen(s, 0, 1) == |storage| - 1
  {
    var push := PushOne(storage, item, left);
    var pop := PopOne(storage, item, left, push[4]);
    states := push + pop[1..];
    forall i | 0 <= i < 8
      ensures Follows(states[i], OneItem(item, left)[i], states[i + 1])
    {
      if i >= 4 {
        assert Follows(pop[i - 4], OneItem(item, left)[4 + (i - 4)], pop[i - 3]);
      }
    }
    RunKeepsInv(storage, states, OneItem(item, left), 8);
    BystanderIsWrong(states[8]);
  }
}
