/** Merging of dirty rectangles, src/diff/rect_merger.cpp, and Rect of src/core/types.h:50-77. */
module RectMerging {
  import opened Words

  datatype Rect = Rect(x: int, y: int, width: int, height: int)
  {
    function Right(): int { x + width }
    function Bottom(): int { y + height }
    function Area(): int { width * height }
    predicate Empty() { width <= 0 || height <= 0 }

    function United(o: Rect): Rect
    {
      var nx, ny := Min(x, o.x), Min(y, o.y);
      Rect(nx, ny, Max(Right(), o.Right()) - nx, Max(Bottom(), o.Bottom()) - ny)
    }

    /** Overlap, or edges or corners that meet. */
    predicate Touches(o: Rect)
    {
      x <= o.Right() && Right() >= o.x && y <= o.Bottom() && Bottom() >= o.y
    }

    predicate Contains(o: Rect)
    {
      x <= o.x && o.Right() <= Right() && y <= o.y && o.Bottom() <= Bottom()
    }
  }

  /** United is the least rectangle that contains both. */
  lemma UnitedIsLeast(a: Rect, b: Rect, c: Rect)
    ensures c.Contains(a.United(b)) <==> c.Contains(a) && c.Contains(b)
    ensures a.United(b).Contains(a) && a.United(b).Contains(b)
    ensures !a.Empty() && !b.Empty() ==> !a.United(b).Empty()
  {
  }

  // ---- Families of rectangles ----

  ghost predicate NoneEmpty(rs: seq<Rect>) { forall i :: 0 <= i < |rs| ==> !rs[i].Empty() }

  ghost predicate Apart(rs: seq<Rect>) { forall i, j :: 0 <= i < j < |rs| ==> !rs[i].Touches(rs[j]) }

  ghost predicate Covered(r: Rect, rs: seq<Rect>) { exists i :: 0 <= i < |rs| && rs[i].Contains(r) }

  /** Every rectangle of the input that has an area lies in one of `rs`. */
  ghost predicate CoversAll(rs: seq<Rect>, input: seq<Rect>)
  {
    forall k :: 0 <= k < |input| && !input[k].Empty() ==> Covered(input[k], rs)
  }

  /** Every member of rs lies in a member of other. */
  ghost predicate Below(rs: seq<Rect>, other: seq<Rect>)
  {
    forall i :: 0 <= i < |rs| ==> Covered(rs[i], other)
  }

  /** A cover whose members keep apart. */
  ghost predicate ClosedCover(rs: seq<Rect>, input: seq<Rect>)
  {
    NoneEmpty(rs) && Apart(rs) && CoversAll(rs, input)
  }

  /** The least closed cover of the input. */
  ghost predicate Merged(input: seq<Rect>, rs: seq<Rect>)
  {
    ClosedCover(rs, input) && forall other :: ClosedCover(other, input) ==> Below(rs, other)
  }

  ghost predicate WithinAll(input: seq<Rect>, c: Rect)
  {
    forall k :: 0 <= k < |input| && !input[k].Empty() ==> c.Contains(input[k])
  }

  // ---- Merging one pair ----

  function MergeAt(rs: seq<Rect>, i: nat, j: nat): (r: seq<Rect>)
    requires i < j < |rs|
    ensures |r| == |rs| - 1
  {
    var u := rs[i := rs[i].United(rs[j])];
    u[..j] + u[j + 1..]
  }

  /** Where member k of the old family is found in the new one. */
  function Moved(i: nat, j: nat, k: nat): nat
    requires i < j
  {
    if k == j then i else if k < j then k else k - 1
  }

  lemma MergedAt(rs: seq<Rect>, i: nat, j: nat, k: nat)
    requires i < j < |rs| && k < |rs|
    ensures Moved(i, j, k) < |MergeAt(rs, i, j)| && MergeAt(rs, i, j)[Moved(i, j, k)].Contains(rs[k])
  {
  }

  lemma MergeCovers(rs: seq<Rect>, i: nat, j: nat, r: Rect)
    requires i < j < |rs| && Covered(r, rs)
    ensures Covered(r, MergeAt(rs, i, j))
  {
    var k :| 0 <= k < |rs| && rs[k].Contains(r);
    MergedAt(rs, i, j, k);
  }

  lemma MergeCoversAll(rs: seq<Rect>, i: nat, j: nat, input: seq<Rect>)
    requires i < j < |rs| && CoversAll(rs, input)
    ensures CoversAll(MergeAt(rs, i, j), input)
  {
    forall k | 0 <= k < |input| && !input[k].Empty()
      ensures Covered(input[k], MergeAt(rs, i, j))
    {
      MergeCovers(rs, i, j, input[k]);
    }
  }

  lemma MergeNoneEmpty(rs: seq<Rect>, i: nat, j: nat)
    requires i < j < |rs| && NoneEmpty(rs)
    ensures NoneEmpty(MergeAt(rs, i, j))
  {
    UnitedIsLeast(rs[i], rs[j], rs[i]);
  }

  /** Touching rectangles lie in the same member of any family that keeps apart. */
  lemma MergeBelow(rs: seq<Rect>, i: nat, j: nat, other: seq<Rect>)
    requires i < j < |rs| && rs[i].Touches(rs[j]) && NoneEmpty(rs)
    requires Apart(other) && Below(rs, other)
    ensures Below(MergeAt(rs, i, j), other)
  {
    var p :| 0 <= p < |other| && other[p].Contains(rs[i]);
    var q :| 0 <= q < |other| && other[q].Contains(rs[j]);
    assert other[p].Touches(other[q]) && other[q].Touches(other[p]);
    assert p == q;
    UnitedIsLeast(rs[i], rs[j], other[p]);
    var next := MergeAt(rs, i, j);
    forall k | 0 <= k < |next|
      ensures Covered(next[k], other)
    {
      if k != i {
        assert next[k] == rs[if k < j then k else k + 1];
      }
    }
  }

  lemma MergeWithin(rs: seq<Rect>, i: nat, j: nat, c: Rect)
    requires i < j < |rs| && forall k :: 0 <= k < |rs| ==> c.Contains(rs[k])
    ensures forall k :: 0 <= k < |rs| - 1 ==> c.Contains(MergeAt(rs, i, j)[k])
  {
    UnitedIsLeast(rs[i], rs[j], c);
  }

  // ---- Confluence ----

  lemma SameMember(rs: seq<Rect>, i: nat, j: nat)
    requires NoneEmpty(rs) && Apart(rs) && i < |rs| && j < |rs| && rs[j].Contains(rs[i])
    ensures i == j
  {
    assert rs[i].Touches(rs[j]) && rs[j].Touches(rs[i]);
  }

  lemma ContainsOrder(a: Rect, b: Rect, c: Rect)
    ensures a.Contains(b) && b.Contains(c) ==> a.Contains(c)
    ensures a.Contains(b) && b.Contains(a) ==> a == b
  {
  }

  lemma MemberAround(rs: seq<Rect>, other: seq<Rect>, i: nat) returns (j: nat)
    requires Below(rs, other) && i < |rs|
    ensures j < |other| && other[j].Contains(rs[i])
  {
    assert Covered(rs[i], other);
    j :| 0 <= j < |other| && other[j].Contains(rs[i]);
  }

  /** Families below each other have the same members. */
  lemma BelowBoth(r1: seq<Rect>, r2: seq<Rect>, i: nat)
    requires NoneEmpty(r1) && Apart(r1) && Below(r1, r2) && Below(r2, r1) && i < |r1|
    ensures r1[i] in r2
  {
    var j := MemberAround(r1, r2, i);
    var k := MemberAround(r2, r1, j);
    ContainsOrder(r1[k], r2[j], r1[i]);
    SameMember(r1, i, k);
    ContainsOrder(r1[i], r2[j], r1[i]);
  }

  lemma LastIsNew(rs: seq<Rect>)
    requires NoneEmpty(rs) && Apart(rs) && rs != []
    ensures rs[|rs| - 1] !in rs[..|rs| - 1]
  {
    forall i | 0 <= i < |rs| - 1
      ensures rs[i] != rs[|rs| - 1]
    {
      assert !rs[i].Touches(rs[|rs| - 1]);
    }
  }

  lemma {:induction false} NoDuplicates(rs: seq<Rect>, r: Rect)
    requires NoneEmpty(rs) && Apart(rs)
    ensures multiset(rs)[r] <= 1
  {
    if rs != [] {
      var front, last := rs[..|rs| - 1], rs[|rs| - 1];
      NoDuplicates(front, r);
      assert rs == front + [last];
      LastIsNew(rs);
    }
  }

  lemma SameMembers(r1: seq<Rect>, r2: seq<Rect>)
    requires NoneEmpty(r1) && Apart(r1) && NoneEmpty(r2) && Apart(r2) && Below(r1, r2) && Below(r2, r1)
    ensures multiset(r1) == multiset(r2)
  {
    forall r: Rect
      ensures multiset(r1)[r] == multiset(r2)[r]
    {
      SameCount(r1, r2, r);
      SameCount(r2, r1, r);
    }
  }

  lemma SameCount(r1: seq<Rect>, r2: seq<Rect>, r: Rect)
    requires NoneEmpty(r1) && Apart(r1) && Below(r1, r2) && Below(r2, r1)
    ensures multiset(r1)[r] <= multiset(r2)[r]
  {
    NoDuplicates(r1, r);
    if r in r1 {
      var i :| 0 <= i < |r1| && r1[i] == r;
      BelowBoth(r1, r2, i);
    }
  }

  /** The rectangles of the input that have an area. */
  ghost function Solid(input: seq<Rect>): set<Rect> { set r | r in input && !r.Empty() }

  lemma SameSolidCover(in1: seq<Rect>, in2: seq<Rect>, rs: seq<Rect>)
    requires Solid(in1) == Solid(in2) && CoversAll(rs, in1)
    ensures CoversAll(rs, in2)
  {
    forall k | 0 <= k < |in2| && !in2[k].Empty()
      ensures Covered(in2[k], rs)
    {
      assert in2[k] in Solid(in1);
      var m :| 0 <= m < |in1| && in1[m] == in2[k];
    }
  }

  /** Confluence: whatever the order, the repetitions and the empty rectangles of the input, and
      whichever touching pairs are merged first, there is one result. */
  lemma MergedIsUnique(in1: seq<Rect>, r1: seq<Rect>, in2: seq<Rect>, r2: seq<Rect>)
    requires Merged(in1, r1) && Merged(in2, r2) && Solid(in1) == Solid(in2)
    ensures multiset(r1) == multiset(r2)
  {
    SameSolidCover(in1, in2, r1);
    SameSolidCover(in2, in1, r2);
    SameMembers(r1, r2);
  }

  // ---- Greedy reduction ----

  /** The area a merge would add. */
  function Waste(rs: seq<Rect>, i: nat, j: nat): int
    requires i < |rs| && j < |rs|
  {
    rs[i].United(rs[j]).Area() - rs[i].Area() - rs[j].Area()
  }

  predicate Before(i: nat, j: nat, k: nat, m: nat) { i < k || (i == k && j < m) }

  /** The first of the pairs that waste least. */
  ghost predicate IsBest(rs: seq<Rect>, i: nat, j: nat)
  {
    && i < j < |rs|
    && forall k, m :: 0 <= k < m < |rs| ==> Better(rs, i, j, k, m)
  }

  predicate Better(rs: seq<Rect>, i: nat, j: nat, k: nat, m: nat)
    requires i < j < |rs| && k < m < |rs|
  {
    if Before(k, m, i, j) then Waste(rs, i, j) < Waste(rs, k, m) else Waste(rs, i, j) <= Waste(rs, k, m)
  }

  /** `to` comes from `from` by merging best pairs. */
  ghost predicate Greedy(from: seq<Rect>, to: seq<Rect>)
    decreases |from|
  {
    from == to || exists i, j :: IsBest(from, i, j) && Greedy(MergeAt(from, i, j), to)
  }

  lemma BestIsUnique(rs: seq<Rect>, i: nat, j: nat, k: nat, m: nat)
    requires IsBest(rs, i, j) && IsBest(rs, k, m)
    ensures i == k && j == m
  {
    assert Better(rs, i, j, k, m) && Better(rs, k, m, i, j);
  }

  lemma {:induction false} GreedyShrinks(from: seq<Rect>, to: seq<Rect>)
    requires Greedy(from, to)
    ensures |to| <= |from| && (|to| == |from| ==> to == from)
    decreases |from|
  {
    if from != to {
      var i, j :| IsBest(from, i, j) && Greedy(MergeAt(from, i, j), to);
      GreedyShrinks(MergeAt(from, i, j), to);
    }
  }

  lemma {:induction false} GreedyThen(from: seq<Rect>, to: seq<Rect>, i: nat, j: nat)
    requires Greedy(from, to) && IsBest(to, i, j)
    ensures Greedy(from, MergeAt(to, i, j))
    decreases |from|
  {
    if from == to {
      assert Greedy(MergeAt(to, i, j), MergeAt(to, i, j));
    } else {
      var k, m :| IsBest(from, k, m) && Greedy(MergeAt(from, k, m), to);
      GreedyThen(MergeAt(from, k, m), to, i, j);
    }
  }

  /** The reduction is determined by where it starts and how many rectangles it leaves. */
  lemma {:induction false} GreedyIsUnique(from: seq<Rect>, r1: seq<Rect>, r2: seq<Rect>)
    requires Greedy(from, r1) && Greedy(from, r2) && |r1| == |r2|
    ensures r1 == r2
    decreases |from|
  {
    GreedyShrinks(from, r1);
    GreedyShrinks(from, r2);
    if |r1| < |from| {
      var i, j :| IsBest(from, i, j) && Greedy(MergeAt(from, i, j), r1);
      var k, m :| IsBest(from, k, m) && Greedy(MergeAt(from, k, m), r2);
      BestIsUnique(from, i, j, k, m);
      GreedyIsUnique(MergeAt(from, i, j), r1, r2);
    }
  }

  // ---- The 32-bit fields ----

  const INT64_MAX: int := 0x7FFF_FFFF_FFFF_FFFF

  predicate Int32(v: int) { -0x8000_0000 <= v <= 0x7FFF_FFFF }

  /** Every quantity the source computes about r fits int32_t. */
  predicate Fits(r: Rect)
  {
    && Int32(r.x) && Int32(r.y) && Int32(r.width) && Int32(r.height)
    && Int32(r.Right()) && Int32(r.Bottom()) && Int32(r.Area())
  }

  lemma AreaMonotone(w: int, h: int, w': int, h': int)
    requires 0 < w <= w' && 0 < h <= h'
    ensures 0 < w * h <= w' * h'
  {
    assert w * h <= w' * h;
    assert w' * h <= w' * h';
  }

  /** No 32-bit computation on a rectangle overflows inside a frame on which none does. */
  lemma FitsInside(r: Rect, frame: Rect)
    requires !r.Empty() && frame.Contains(r) && Fits(frame)
    ensures Fits(r) && 0 < r.Area() <= frame.Area()
  {
    AreaMonotone(r.width, r.height, frame.width, frame.height);
  }

  ghost predicate AllInside(rs: seq<Rect>, frame: Rect) { forall i :: 0 <= i < |rs| ==> frame.Contains(rs[i]) }

  lemma WasteFits(rs: seq<Rect>, frame: Rect, i: nat, j: nat)
    requires NoneEmpty(rs) && AllInside(rs, frame) && Fits(frame) && i < j < |rs|
    ensures Fits(rs[i].United(rs[j])) && -0x1_0000_0000 <= Waste(rs, i, j) <= 0x7FFF_FFFF
  {
    UnitedIsLeast(rs[i], rs[j], frame);
    FitsInside(rs[i], frame);
    FitsInside(rs[j], frame);
    FitsInside(rs[i].United(rs[j]), frame);
  }

  // ---- The algorithms ----

  /** Every closed cover of the input is above rs. */
  ghost predicate BelowCovers(rs: seq<Rect>, input: seq<Rect>)
  {
    forall other :: ClosedCover(other, input) ==> Below(rs, other)
  }

  /** What the working list keeps while touching pairs are merged. */
  ghost predicate Working(rs: seq<Rect>, input: seq<Rect>)
  {
    NoneEmpty(rs) && CoversAll(rs, input) && BelowCovers(rs, input)
  }

  lemma MergeTouching(rs: seq<Rect>, input: seq<Rect>, i: nat, j: nat)
    requires Working(rs, input) && i < j < |rs| && rs[i].Touches(rs[j])
    ensures Working(MergeAt(rs, i, j), input)
  {
    MergeNoneEmpty(rs, i, j);
    MergeCoversAll(rs, i, j, input);
    forall other | ClosedCover(other, input)
      ensures Below(MergeAt(rs, i, j), other)
    {
      MergeBelow(rs, i, j, other);
    }
  }

  /** The copy of the non-empty rectangles. */
  method CopySolid(rects: seq<Rect>) returns (result: seq<Rect>)
    ensures Working(result, rects)
  {
    result := [];
    for n := 0 to |rects|
      invariant NoneEmpty(result)
      invariant forall k :: 0 <= k < n && !rects[k].Empty() ==> rects[k] in result
      invariant forall i :: 0 <= i < |result| ==> result[i] in rects
    {
      if !rects[n].Empty() {
        result := result + [rects[n]];
      }
    }
    SolidIsWorking(result, rects);
  }

  lemma SolidIsWorking(rs: seq<Rect>, input: seq<Rect>)
    requires NoneEmpty(rs)
    requires forall k :: 0 <= k < |input| && !input[k].Empty() ==> input[k] in rs
    requires forall i :: 0 <= i < |rs| ==> rs[i] in input
    ensures Working(rs, input)
  {
    forall k | 0 <= k < |input| && !input[k].Empty()
      ensures Covered(input[k], rs)
    {
      var i :| 0 <= i < |rs| && rs[i] == input[k];
    }
    forall other, i | ClosedCover(other, input) && 0 <= i < |rs|
      ensures Covered(rs[i], other)
    {
      var k :| 0 <= k < |input| && input[k] == rs[i];
    }
  }

  /** The scan for a touching pair, in the order of the source's loops. */
  method FindTouching(rs: seq<Rect>) returns (found: bool, i: nat, j: nat)
    ensures found ==> i < j < |rs| && rs[i].Touches(rs[j])
    ensures !found ==> Apart(rs)
  {
    i, j, found := 0, 0, false;
    while i < |rs|
      invariant i <= |rs| && forall k, m :: 0 <= k < i && k < m < |rs| ==> !rs[k].Touches(rs[m])
    {
      j := i + 1;
      while j < |rs|
        invariant i < j <= |rs| && forall m :: i < m < j ==> !rs[i].Touches(rs[m])
      {
        if rs[i].Touches(rs[j]) {
          found := true;
          return;
        }
        j := j + 1;
      }
      i := i + 1;
    }
  }

  method MergeOverlapping(rects: seq<Rect>) returns (result: seq<Rect>)
    ensures Merged(rects, result)
  {
    result := CopySolid(rects);
    var merged := true;
    while merged
      invariant Working(result, rects) && (!merged ==> Apart(result))
      decreases |result|, if merged then 1 else 0
    {
      var i, j;
      merged, i, j := FindTouching(result);
      if merged {
        MergeTouching(result, rects, i, j);
        ghost var before := result;
        result := result[i := result[i].United(result[j])];
        result := result[..j] + result[j + 1..];
        assert result == MergeAt(before, i, j);
      }
    }
  }

  /** The result lies in every rectangle that contains the input, so in its bounding box. */
  lemma MergedInside(input: seq<Rect>, rs: seq<Rect>, c: Rect)
    requires Merged(input, rs) && WithinAll(input, c) && !c.Empty()
    ensures AllInside(rs, c)
  {
    forall k | 0 <= k < |input| && !input[k].Empty()
      ensures Covered(input[k], [c])
    {
      assert [c][0].Contains(input[k]);
    }
    assert ClosedCover([c], input);
    forall i | 0 <= i < |rs|
      ensures c.Contains(rs[i])
    {
      assert Covered(rs[i], [c]);
    }
  }

  /** The best of the pairs before (i, j); before the first pair, the starting values. */
  ghost predicate BestSoFar(rs: seq<Rect>, bestI: nat, bestJ: nat, bestCost: int, i: nat, j: nat)
  {
    && |rs| >= 2 && bestI < bestJ < |rs|
    && (i == 0 && j == 1 ==> bestCost == INT64_MAX)
    && (i > 0 || j > 1 ==> bestCost == Waste(rs, bestI, bestJ) && Before(bestI, bestJ, i, j))
    && forall k, m :: 0 <= k < m < |rs| && Before(k, m, i, j) ==> Better(rs, bestI, bestJ, k, m)
  }

  lemma PairStep(rs: seq<Rect>, bestI: nat, bestJ: nat, bestCost: int, i: nat, j: nat)
    requires BestSoFar(rs, bestI, bestJ, bestCost, i, j) && i < j < |rs| && Waste(rs, i, j) < INT64_MAX
    ensures if Waste(rs, i, j) < bestCost then BestSoFar(rs, i, j, Waste(rs, i, j), i, j + 1)
            else BestSoFar(rs, bestI, bestJ, bestCost, i, j + 1)
  {
    if Waste(rs, i, j) < bestCost {
      forall k, m | 0 <= k < m < |rs| && Before(k, m, i, j + 1)
        ensures Better(rs, i, j, k, m)
      {
        assert Before(k, m, i, j) ==> Better(rs, bestI, bestJ, k, m);
      }
    } else {
      forall k, m | 0 <= k < m < |rs| && Before(k, m, i, j + 1)
        ensures Better(rs, bestI, bestJ, k, m)
      {
        assert Before(k, m, i, j) ==> Better(rs, bestI, bestJ, k, m);
      }
    }
  }

  lemma RowDone(rs: seq<Rect>, bestI: nat, bestJ: nat, bestCost: int, i: nat)
    requires BestSoFar(rs, bestI, bestJ, bestCost, i, |rs|) && i < |rs|
    ensures BestSoFar(rs, bestI, bestJ, bestCost, i + 1, i + 2)
  {
  }

  lemma AllDone(rs: seq<Rect>, bestI: nat, bestJ: nat, bestCost: int)
    requires BestSoFar(rs, bestI, bestJ, bestCost, |rs|, |rs| + 1)
    ensures IsBest(rs, bestI, bestJ)
  {
    forall k, m | 0 <= k < m < |rs|
      ensures Better(rs, bestI, bestJ, k, m)
    {
      assert Before(k, m, |rs|, |rs| + 1);
    }
  }

  /** frame is any rectangle that holds the input and whose own numbers fit. */
  method FindBestMergePair(rs: seq<Rect>, ghost frame: Rect) returns (bestI: nat, bestJ: nat)
    requires |rs| >= 2 && NoneEmpty(rs) && AllInside(rs, frame) && Fits(frame)
    ensures IsBest(rs, bestI, bestJ)
  {
    bestI, bestJ := 0, 1;
    var bestCost := INT64_MAX;
    for i := 0 to |rs|
      invariant BestSoFar(rs, bestI, bestJ, bestCost, i, i + 1)
    {
      for j := i + 1 to |rs|
        invariant BestSoFar(rs, bestI, bestJ, bestCost, i, j)
      {
        WasteFits(rs, frame, i, j);
        PairStep(rs, bestI, bestJ, bestCost, i, j);
        var waste := Waste(rs, i, j);
        if waste < bestCost {
          bestCost, bestI, bestJ := waste, i, j;
        }
      }
      RowDone(rs, bestI, bestJ, bestCost, i);
    }
    AllDone(rs, bestI, bestJ, bestCost);
  }

  /** What the greedy steps keep. */
  ghost predicate Cover(rs: seq<Rect>, input: seq<Rect>, frame: Rect)
  {
    NoneEmpty(rs) && CoversAll(rs, input) && AllInside(rs, frame)
  }

  lemma GreedyStepKeeps(rs: seq<Rect>, input: seq<Rect>, frame: Rect, i: nat, j: nat)
    requires Cover(rs, input, frame) && i < j < |rs|
    ensures Cover(MergeAt(rs, i, j), input, frame)
  {
    MergeNoneEmpty(rs, i, j);
    MergeCoversAll(rs, i, j, input);
    MergeWithin(rs, i, j, frame);
  }

  /** One step of the reduction, inside the vector. */
  method MergeBestPair(ghost first: seq<Rect>, rs: seq<Rect>, ghost input: seq<Rect>, ghost frame: Rect)
    returns (working: seq<Rect>)
    requires |rs| >= 2 && Cover(rs, input, frame) && Fits(frame) && Greedy(first, rs)
    ensures |working| == |rs| - 1 && Cover(working, input, frame) && Greedy(first, working)
  {
    var i, j := FindBestMergePair(rs, frame);
    GreedyThen(first, rs, i, j);
    GreedyStepKeeps(rs, input, frame, i, j);
    working := rs[i := rs[i].United(rs[j])];
    working := working[..j] + working[j + 1..];
    assert working == MergeAt(rs, i, j);
  }

  lemma NothingToMerge(frame: Rect)
    requires !frame.Empty()
    ensures Merged([], []) && Cover([], [], frame) && Greedy([], [])
  {
  }

  /** At most max(1, maxRects) rectangles that cover the input inside its frame, got from the
      least closed cover by merging the pair that wastes least, again and again. */
  method Merge(rects: seq<Rect>, maxRects: int, ghost frame: Rect) returns (working: seq<Rect>, ghost first: seq<Rect>)
    requires !frame.Empty() && WithinAll(rects, frame) && Fits(frame)
    ensures |working| <= Max(1, maxRects) && Cover(working, rects, frame)
    ensures Merged(rects, first) && Greedy(first, working) && (|first| <= Max(1, maxRects) ==> working == first)
    ensures |first| >= Max(1, maxRects) ==> |working| == Max(1, maxRects)
  {
    if rects == [] {
      NothingToMerge(frame);
      return [], [];
    }
    var limit := if maxRects <= 0 then 1 else maxRects;
    working := MergeOverlapping(rects);
    first := working;
    MergedInside(rects, working, frame);
    while |working| > limit
      invariant Cover(working, rects, frame) && Greedy(first, working)
      invariant |first| <= limit ==> working == first
      invariant |first| >= limit ==> |working| >= limit
    {
      working := MergeBestPair(first, working, rects, frame);
    }
  }
}
