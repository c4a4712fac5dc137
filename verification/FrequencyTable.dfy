/** Construction of the normalised frequency table, src/codec/omni/rans_codec.cpp:12-92. */
module FrequencyTable {
  import opened Words
  import opened Arithmetic

  // RANS_SCALE is 4096 throughout.

  datatype RansSymbol = RansSymbol(freq: u16, cumFreq: u16, rcpFreq: u32)

  function Sum(s: seq<nat>): nat
  {
    if s == [] then 0 else Sum(s[..|s| - 1]) + s[|s| - 1]
  }

  lemma SumStep(s: seq<nat>, i: nat)
    requires i < |s|
    ensures Sum(s[..i + 1]) == Sum(s[..i]) + s[i]
  {
    assert s[..i + 1][..i] == s[..i];
  }

  lemma {:induction false} SumMonotone(s: seq<nat>, i: nat, j: nat)
    requires i <= j <= |s|
    ensures Sum(s[..i]) <= Sum(s[..j])
  {
    if i < j {
      SumMonotone(s, i, j - 1);
      SumStep(s, j - 1);
    }
  }

  lemma {:induction false} SumUpdate(s: seq<nat>, i: nat, v: nat)
    requires i < |s|
    ensures Sum(s[i := v]) == Sum(s) - s[i] + v
  {
    if i == |s| - 1 {
      assert s[i := v][..i] == s[..i];
    } else {
      assert s[i := v][..|s| - 1] == s[..|s| - 1][i := v];
      SumUpdate(s[..|s| - 1], i, v);
    }
  }

  lemma {:induction false} SumAtMost(s: seq<nat>, bound: nat)
    requires forall i :: 0 <= i < |s| ==> s[i] <= bound
    ensures Sum(s) <= |s| * bound
  {
    if s != [] {
      SumAtMost(s[..|s| - 1], bound);
    }
  }

  // ---- The algorithm as a function of the counts ----

  function Rounded(count: nat, total: nat): nat
    requires total > 0
  {
    if count == 0 then 0 else Max(1, (count * 4096 + total / 2) / total)
  }

  function Scaled(counts: seq<nat>, total: nat): (s: seq<nat>)
    requires total > 0
    ensures |s| == |counts|
  {
    seq(|counts|, i requires 0 <= i < |counts| => Rounded(counts[i], total))
  }

  /** The first index of a maximum among the first n entries. */
  function FirstMax(s: seq<nat>, n: nat): (m: nat)
    requires 1 <= n <= |s|
    ensures m < n
  {
    if n == 1 then 0
    else
      var m := FirstMax(s, n - 1);
      if s[n - 1] > s[m] then n - 1 else m
  }

  lemma {:induction false} FirstMaxIsMax(s: seq<nat>, n: nat)
    requires 1 <= n <= |s|
    ensures var m := FirstMax(s, n);
      && (forall i :: 0 <= i < n ==> s[i] <= s[m])
      && (forall i :: 0 <= i < m ==> s[i] < s[m])
  {
    if n > 1 {
      FirstMaxIsMax(s, n - 1);
    }
  }

  ghost predicate AnyAboveOne(s: seq<nat>, i: nat) { exists j :: i <= j < |s| && s[j] > 1 }

  lemma AboveOneExists(s: seq<nat>)
    requires |s| < Sum(s)
    ensures AnyAboveOne(s, 0)
  {
    if !AnyAboveOne(s, 0) {
      SumAtMost(s, 1);
    }
  }

  /** The decrement fallback: sweep over the entries, taking one from each that stays
      positive, until `excess` units are gone. */
  function Shave(s: seq<nat>, i: nat, excess: nat): (r: seq<nat>)
    requires i <= |s| && Sum(s) == 4096 + excess && |s| <= 256
    ensures |r| == |s|
    decreases excess, if AnyAboveOne(s, i) then 0 else 1, |s| - i
  {
    AboveOneExists(s);
    if excess == 0 then s
    else if i == |s| then Shave(s, 0, excess)
    else if s[i] > 1 then
      SumUpdate(s, i, s[i] - 1);
      Shave(s[i := s[i] - 1], i + 1, excess - 1)
    else Shave(s, i + 1, excess)
  }

  function Adjusted(s: seq<nat>): (r: seq<nat>)
    requires 1 <= |s| <= 256
    ensures |r| == |s|
  {
    var m, sum := FirstMax(s, |s|), Sum(s);
    if sum == 4096 then s
    else if s[m] + 4096 - sum >= 1 then s[m := s[m] + 4096 - sum]
    else Shave(s, 0, sum - 4096)
  }

  function Uniform(n: nat): (r: seq<nat>)
    requires n > 0
  {
    seq(n, i => 4096 / n + (if i < 4096 - 4096 / n * n then 1 else 0))
  }

  function Frequencies(counts: seq<nat>): (r: seq<nat>)
    requires 1 <= |counts| <= 256
    ensures |r| == |counts|
  {
    if Sum(counts) == 0 then Uniform(|counts|) else Adjusted(Scaled(counts, Sum(counts)))
  }

  /** The precomputed reciprocal: floor(2^32 / freq), clamped to 32 bits. */
  function Reciprocal(f: nat): u32
  {
    if f == 0 then 0 else Min(0x1_0000_0000 / f, 0xFFFF_FFFF)
  }

  // ---- What normalisation guarantees ----

  ghost predicate SameSupport(s: seq<nat>, r: seq<nat>)
  {
    |s| == |r| && forall i :: 0 <= i < |s| ==> (r[i] > 0 <==> s[i] > 0)
  }

  lemma {:induction false} ShaveExact(s: seq<nat>, i: nat, excess: nat)
    requires i <= |s| && Sum(s) == 4096 + excess && |s| <= 256
    ensures var r := Shave(s, i, excess);
      Sum(r) == 4096 && SameSupport(s, r) && forall j :: 0 <= j < |s| ==> r[j] <= s[j]
    decreases excess, if AnyAboveOne(s, i) then 0 else 1, |s| - i
  {
    AboveOneExists(s);
    if excess == 0 {
    } else if i == |s| {
      ShaveExact(s, 0, excess);
    } else if s[i] > 1 {
      SumUpdate(s, i, s[i] - 1);
      ShaveExact(s[i := s[i] - 1], i + 1, excess - 1);
    } else {
      ShaveExact(s, i + 1, excess);
    }
  }

  lemma TopUpExact(s: seq<nat>, m: nat, v: nat)
    requires m < |s| && s[m] > 0 && v > 0 && v == s[m] + 4096 - Sum(s)
    ensures Sum(s[m := v]) == 4096 && SameSupport(s, s[m := v])
  {
    SumUpdate(s, m, v);
  }

  lemma AdjustedExact(s: seq<nat>, m: nat)
    requires 1 <= |s| <= 256 && Sum(s) > 0 && m == FirstMax(s, |s|)
    ensures var r := Adjusted(s); Sum(r) == 4096 && SameSupport(s, r)
  {
    MaxPositive(s);
    if Sum(s) != 4096 {
      if s[m] + 4096 - Sum(s) >= 1 {
        TopUpExact(s, m, s[m] + 4096 - Sum(s));
      } else {
        ShaveExact(s, 0, Sum(s) - 4096);
      }
    }
  }

  lemma MaxPositive(s: seq<nat>)
    requires 1 <= |s| && Sum(s) > 0
    ensures s[FirstMax(s, |s|)] > 0
  {
    FirstMaxIsMax(s, |s|);
    if s[FirstMax(s, |s|)] == 0 {
      SumAtMost(s, 0);
    }
  }

  lemma {:induction false} SumPositive(s: seq<nat>, i: nat)
    requires i < |s|
    ensures s[i] <= Sum(s)
  {
    if i < |s| - 1 {
      SumPositive(s[..|s| - 1], i);
    }
  }

  lemma RoundedBounds(count: nat, total: nat)
    requires 0 < total && count <= total
    ensures Rounded(count, total) <= 4096
    ensures Rounded(count, total) > 0 <==> count > 0
  {
    if count > 0 {
      var num := count * 4096 + total / 2;
      assert num < (4096 + 1) * total;
    }
  }

  lemma ScaledSupport(counts: seq<nat>)
    requires Sum(counts) > 0
    ensures SameSupport(counts, Scaled(counts, Sum(counts)))
    ensures forall i :: 0 <= i < |counts| ==> Scaled(counts, Sum(counts))[i] <= 4096
    ensures Sum(Scaled(counts, Sum(counts))) > 0
  {
    var s, total := Scaled(counts, Sum(counts)), Sum(counts);
    forall i | 0 <= i < |counts|
      ensures s[i] <= 4096 && (s[i] > 0 <==> counts[i] > 0)
    {
      SumPositive(counts, i);
      RoundedBounds(counts[i], total);
    }
    if forall i :: 0 <= i < |counts| ==> counts[i] == 0 {
      SumAtMost(counts, 0);
    } else {
      var i :| 0 <= i < |counts| && counts[i] != 0;
      SumPositive(s, i);
    }
  }

  /** Main result: for every histogram with at least one symbol, the frequencies sum to
      exactly 4096 and a frequency is positive exactly for the symbols that occur. */
  lemma FrequenciesNormalised(counts: seq<nat>)
    requires 1 <= |counts| <= 256 && Sum(counts) > 0
    ensures Sum(Frequencies(counts)) == 4096
    ensures SameSupport(counts, Frequencies(counts))
  {
    ScaledSupport(counts);
    var s := Scaled(counts, Sum(counts));
    AdjustedExact(s, FirstMax(s, |s|));
  }

  lemma {:induction false} UniformPrefix(u: seq<nat>, each: nat, remainder: nat, i: nat)
    requires i <= |u|
    requires forall k :: 0 <= k < |u| ==> u[k] == each + (if k < remainder then 1 else 0)
    ensures Sum(u[..i]) == i * each + Min(i, remainder)
  {
    if i > 0 {
      UniformPrefix(u, each, remainder, i - 1);
      SumStep(u, i - 1);
      assert i * each == (i - 1) * each + each;
    }
  }

  lemma Division(a: nat, n: nat)
    requires n > 0
    ensures 0 <= a - a / n * n < n && (n <= a ==> a / n >= 1)
    ensures n * (a / n) + (a - a / n * n) == a
  {
  }

  /** The empty histogram also gets a table that sums to 4096, with every entry positive. */
  lemma UniformNormalised(n: nat)
    requires 1 <= n <= 256
    ensures Sum(Uniform(n)) == 4096
    ensures forall i :: 0 <= i < n ==> Uniform(n)[i] > 0
    ensures forall i, j :: 0 <= i < j < n ==> Uniform(n)[j] <= Uniform(n)[i] <= Uniform(n)[j] + 1
  {
    var u, each, remainder := Uniform(n), 4096 / n, 4096 - 4096 / n * n;
    Division(4096, n);
    UniformPrefix(u, each, remainder, n);
    assert u[..n] == u;
  }

  // ---- How the frequencies follow the counts ----

  /** f is the integer nearest to 4096 * count / total, the upper one of two, but at least 1 for a
      symbol that occurs. */
  ghost predicate Nearest(f: nat, count: nat, total: nat)
  {
    if count == 0 then f == 0
    else f >= 1 && (0 - total <= 2 * (4096 * count - f * total) < total || (f == 1 && 8192 * count < total))
  }

  lemma NearestIsUnique(f: nat, g: nat, count: nat, total: nat)
    requires total > 0 && Nearest(f, count, total) && Nearest(g, count, total)
    ensures f == g
  {
    if f < g {
      Apart(f, g, total);
    } else if g < f {
      Apart(g, f, total);
    }
  }

  lemma Apart(f: nat, g: nat, total: nat)
    requires f < g
    ensures g * total >= f * total + total
  {
    MulMonotone(f + 1, g, total);
  }

  lemma RoundedIsNearest(count: nat, total: nat)
    requires total > 0
    ensures Nearest(Rounded(count, total), count, total)
  {
    var num := count * 4096 + total / 2;
    var q := num / total;
    assert q * total <= num < q * total + total;
  }

  /** k whole sweeps, and one more over the first p entries. */
  ghost function Level(v: nat, k: nat): nat { if v == 0 then 0 else Max(1, v - k) }

  ghost function Leveled(s: seq<nat>, k: nat, p: nat): (r: seq<nat>)
    ensures |r| == |s|
  {
    seq(|s|, j requires 0 <= j < |s| => Level(s[j], if j < p then k + 1 else k))
  }

  /** The decrement fallback takes from all alike: every entry goes down by the same amount, the
      first p by one more, except that none that is positive falls below 1. */
  lemma {:induction false} ShaveIsLevel(s: seq<nat>, k: nat, i: nat, at: seq<nat>, excess: nat)
    returns (k': nat, p: nat)
    requires i <= |s| <= 256 && at == Leveled(s, k, i) && Sum(at) == 4096 + excess
    ensures p <= |s| && Shave(at, i, excess) == Leveled(s, k', p)
    decreases excess, if AnyAboveOne(at, i) then 0 else 1, |s| - i
  {
    AboveOneExists(at);
    if excess == 0 {
      k', p := k, i;
    } else if i == |s| {
      assert at == Leveled(s, k + 1, 0);
      k', p := ShaveIsLevel(s, k + 1, 0, at, excess);
    } else if at[i] > 1 {
      SumUpdate(at, i, at[i] - 1);
      assert at[i := at[i] - 1] == Leveled(s, k, i + 1);
      k', p := ShaveIsLevel(s, k, i + 1, at[i := at[i] - 1], excess - 1);
    } else {
      assert at == Leveled(s, k, i + 1);
      k', p := ShaveIsLevel(s, k, i + 1, at, excess);
    }
  }

  /** Main result: each symbol gets the nearest share of 4096; the first of the largest shares
      absorbs what is over or missing, or, where that would leave it nothing, all shares go down
      alike. */
  lemma FrequenciesFollow(counts: seq<nat>) returns (s: seq<nat>, m: nat, k: nat, p: nat)
    requires 1 <= |counts| <= 256 && Sum(counts) > 0
    ensures |s| == |counts| && forall i :: 0 <= i < |s| ==> Nearest(s[i], counts[i], Sum(counts))
    ensures m < |s| && (forall i :: 0 <= i < |s| ==> s[i] <= s[m]) && forall i :: 0 <= i < m ==> s[i] < s[m]
    ensures Sum(s) < 4096 + s[m] ==> Frequencies(counts) == s[m := s[m] + 4096 - Sum(s)]
    ensures Sum(s) >= 4096 + s[m] ==> p <= |s| && Frequencies(counts) == Leveled(s, k, p)
  {
    s, k, p := Scaled(counts, Sum(counts)), 0, 0;
    m := FirstMax(s, |s|);
    FirstMaxIsMax(s, |s|);
    forall i | 0 <= i < |s|
      ensures Nearest(s[i], counts[i], Sum(counts))
    {
      RoundedIsNearest(counts[i], Sum(counts));
    }
    if Sum(s) >= 4096 + s[m] {
      assert s == Leveled(s, 0, 0);
      k, p := ShaveIsLevel(s, 0, 0, s, Sum(s) - 4096);
    }
  }

  /** So, where one entry absorbs the difference, every other one is the nearest share. */
  lemma OthersAreNearest(counts: seq<nat>) returns (m: nat)
    requires 1 <= |counts| <= 256 && Sum(counts) > 0
    ensures m < |counts|
    ensures var f := Frequencies(counts);
      || (forall i :: 0 <= i < |f| && i != m ==> Nearest(f[i], counts[i], Sum(counts)))
      || (forall i :: 0 <= i < |f| ==> Falls(f[i], counts[i], Sum(counts)))
  {
    var s, k, p;
    s, m, k, p := FrequenciesFollow(counts);
    if Sum(s) >= 4096 + s[m] {
      forall i | 0 <= i < |counts|
        ensures Falls(Frequencies(counts)[i], counts[i], Sum(counts))
      {
        assert Nearest(s[i], counts[i], Sum(counts));
      }
    }
  }

  /** f is not above the nearest share. */
  ghost predicate Falls(f: nat, count: nat, total: nat) { exists g: nat :: f <= g && Nearest(g, count, total) }

  /** A larger share means a larger count. */
  lemma ShareOrder(f: nat, g: nat, a: nat, b: nat, total: nat)
    requires total > 0 && Nearest(f, a, total) && Nearest(g, b, total) && g < f
    ensures b < a
  {
    Apart(g, f, total);
  }

  /** The absorbing entry, which has the largest share, has the largest count if and only if it has
      the largest count among the entries with that share. */
  lemma AbsorberCount(counts: seq<nat>, s: seq<nat>, m: nat)
    requires |s| == |counts| && m < |s| && Sum(counts) > 0
    requires forall i :: 0 <= i < |s| ==> Nearest(s[i], counts[i], Sum(counts)) && s[i] <= s[m]
    ensures (forall i :: 0 <= i < |s| ==> counts[i] <= counts[m])
       <==> (forall i :: 0 <= i < |s| && s[i] == s[m] ==> counts[i] <= counts[m])
  {
    forall i | 0 <= i < |s| && s[i] < s[m]
      ensures counts[i] <= counts[m]
    {
      ShareOrder(s[m], s[i], counts[m], counts[i], Sum(counts));
    }
  }

  /** It need not: the unit that three equal shares leave over goes to the first symbol here, while
      the second occurs more often. */
  lemma FirstTakesTheRest()
    ensures Frequencies([1_000_000, 1_000_001, 1_000_000]) == [1366, 1365, 1365]
  {
    var counts := [1_000_000, 1_000_001, 1_000_000];
    ThreeSum(counts);
    var s := Scaled(counts, 3_000_001);
    assert s == [1365, 1365, 1365];
    ThreeSum(s);
    assert FirstMax(s, 1) == 0 && FirstMax(s, 2) == 0 && FirstMax(s, 3) == 0;
  }

  lemma ThreeSum(s: seq<nat>)
    requires |s| == 3
    ensures Sum(s) == s[0] + s[1] + s[2]
  {
    assert s[..3] == s;
    SumStep(s, 0);
    SumStep(s, 1);
    SumStep(s, 2);
  }

  // ---- The table ----

  function MakeTable(freqs: seq<nat>): (t: seq<RansSymbol>)
    requires forall i :: 0 <= i < |freqs| ==> freqs[i] <= 4096 && Sum(freqs[..i]) <= 4096
    ensures |t| == |freqs|
  {
    seq(|freqs|, i requires 0 <= i < |freqs| =>
      RansSymbol(freqs[i], Sum(freqs[..i]), Reciprocal(freqs[i])))
  }

  lemma PrefixesFit(freqs: seq<nat>)
    requires Sum(freqs) <= 4096
    ensures forall i :: 0 <= i < |freqs| ==> freqs[i] <= 4096 && Sum(freqs[..i]) <= 4096
  {
    assert freqs[..|freqs|] == freqs;
    forall i | 0 <= i < |freqs|
      ensures freqs[i] <= 4096 && Sum(freqs[..i]) <= 4096
    {
      SumPositive(freqs, i);
      SumMonotone(freqs, i, |freqs|);
    }
  }

  lemma FrequenciesFit(counts: seq<nat>)
    requires 1 <= |counts| <= 256
    ensures Sum(Frequencies(counts)) == 4096
    ensures var f := Frequencies(counts);
      forall i :: 0 <= i < |f| ==> f[i] <= 4096 && Sum(f[..i]) <= 4096
  {
    if Sum(counts) == 0 {
      UniformNormalised(|counts|);
    } else {
      FrequenciesNormalised(counts);
    }
    PrefixesFit(Frequencies(counts));
  }

  function FrequencyTableOf(counts: seq<nat>): (t: seq<RansSymbol>)
    requires 1 <= |counts| <= 256
    ensures |t| == |counts|
  {
    FrequenciesFit(counts);
    MakeTable(Frequencies(counts))
  }

  /** buildFreqTableCore.  The source's increment loop after the decrement loop is not
      written out: its guard is proved false where it stands. */
  method BuildFreqTableCore(counts: seq<u32>, table: array<RansSymbol>)
    requires 1 <= |counts| <= 256 && table.Length == |counts|
    modifies table
    ensures table[..] == FrequencyTableOf(counts)
  {
    var n := |counts|;
    var total: nat := 0;
    for i := 0 to n
      invariant total == Sum(counts[..i])
    {
      SumStep(counts, i);
      total := total + counts[i];
    }
    assert counts[..n] == counts;
    FrequenciesFit(counts);
    var scaled := new nat[n];
    if total == 0 {
      FillUniform(scaled);
    } else {
      NormaliseInto(counts, total, scaled);
    }
    Cumulate(scaled, table);
  }

  method FillUniform(scaled: array<nat>)
    requires scaled.Length > 0
    modifies scaled
    ensures scaled[..] == Uniform(scaled.Length)
  {
    var n := scaled.Length;
    var freqEach := 4096 / n;
    var remainder := 4096 - freqEach * n;
    for i := 0 to n
      invariant forall k :: 0 <= k < i ==> scaled[k] == freqEach + (if k < remainder then 1 else 0)
    {
      scaled[i] := freqEach + (if i < remainder then 1 else 0);
    }
  }

  /** Cumulative frequencies and reciprocals. */
  method Cumulate(scaled: array<nat>, table: array<RansSymbol>)
    requires scaled.Length == table.Length && Sum(scaled[..]) <= 4096
    modifies table
    ensures forall i :: 0 <= i < scaled.Length ==>
      scaled[i] <= 4096 && Sum(scaled[..][..i]) <= 4096
    ensures table[..] == MakeTable(scaled[..])
  {
    ghost var freqs := scaled[..];
    PrefixesFit(freqs);
    var cum: nat := 0;
    for i := 0 to table.Length
      invariant cum == Sum(freqs[..i])
      invariant forall k :: 0 <= k < i ==> table[k] == RansSymbol(freqs[k], Sum(freqs[..k]), Reciprocal(freqs[k]))
    {
      var rcp := ClampedReciprocal(scaled[i]);
      table[i] := RansSymbol(scaled[i], cum, rcp);
      SumStep(freqs, i);
      cum := cum + scaled[i];
    }
  }

  method ClampedReciprocal(f: nat) returns (rcp: u32)
    ensures rcp == Reciprocal(f)
  {
    var quotient := if f > 0 then 0x1_0000_0000 / f else 0;
    rcp := if quotient > 0xFFFF_FFFF then 0xFFFF_FFFF else quotient;
  }

  method NormaliseInto(counts: seq<u32>, total: nat, scaled: array<nat>)
    requires 1 <= |counts| <= 256 && scaled.Length == |counts|
    requires total == Sum(counts) > 0
    modifies scaled
    ensures scaled[..] == Frequencies(counts)
  {
    var n := |counts|;
    ghost var s0 := Scaled(counts, total);
    ScaledSupport(counts);
    var scaledSum: nat := 0;
    for i := 0 to n
      invariant forall k :: 0 <= k < i ==> scaled[k] == s0[k]
      invariant scaledSum == Sum(s0[..i])
    {
      scaled[i] := if counts[i] == 0 then 0 else Max(1, (counts[i] * 4096 + total / 2) / total);
      SumStep(s0, i);
      scaledSum := scaledSum + scaled[i];
    }
    assert s0[..n] == s0 == scaled[..];
    AdjustInPlace(scaled, scaledSum);
  }

  method AdjustInPlace(scaled: array<nat>, scaledSum: nat)
    requires 1 <= scaled.Length <= 256 && scaledSum == Sum(scaled[..])
    modifies scaled
    ensures scaled[..] == Adjusted(old(scaled[..]))
  {
    ghost var s0 := scaled[..];
    if scaledSum != 4096 {
      var maxIdx := 0;
      for i := 1 to scaled.Length
        invariant maxIdx == FirstMax(s0, i)
      {
        if scaled[i] > scaled[maxIdx] {
          maxIdx := i;
        }
      }
      var newVal := scaled[maxIdx] + 4096 - scaledSum;
      if newVal >= 1 {
        scaled[maxIdx] := newVal;
      } else {
        ShaveInPlace(scaled, scaledSum);
      }
    }
  }

  method ShaveInPlace(scaled: array<nat>, sum: nat)
    requires scaled.Length <= 256 && sum == Sum(scaled[..]) >= 4096
    modifies scaled
    ensures scaled[..] == Shave(old(scaled[..]), 0, sum - 4096)
    ensures Sum(scaled[..]) == 4096
  {
    var scaledSum := sum;
    ghost var goal := Shave(scaled[..], 0, sum - 4096);
    while scaledSum > 4096
      invariant scaledSum == Sum(scaled[..]) >= 4096
      invariant Shave(scaled[..], 0, scaledSum - 4096) == goal
    {
      var i := 0;
      ghost var before := scaledSum;
      AboveOneExists(scaled[..]);
      while i < scaled.Length && scaledSum > 4096
        invariant 0 <= i <= scaled.Length
        invariant scaledSum == Sum(scaled[..]) >= 4096 && scaledSum <= before
        invariant scaledSum < before || AnyAboveOne(scaled[..], i)
        invariant Shave(scaled[..], i, scaledSum - 4096) == goal
        decreases scaled.Length - i
      {
        if scaled[i] > 1 {
          ghost var s := scaled[..];
          SumUpdate(s, i, s[i] - 1);
          scaled[i] := scaled[i] - 1;
          assert scaled[..] == s[i := s[i] - 1];
          scaledSum := scaledSum - 1;
        }
        i := i + 1;
      }
    }
  }
}
