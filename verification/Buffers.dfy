/** Buffers that are filled from the front. */
module Buffers {

  /** The first n places hold what they shall. */
  ghost predicate Filled(a: seq<int>, spec: seq<int>, n: int)
  {
    n <= |a| == |spec| && forall i :: 0 <= i < n ==> a[i] == spec[i]
  }

  lemma FilledStep(a: seq<int>, spec: seq<int>, n: nat)
    requires Filled(a, spec, n) && n < |spec|
    ensures Filled(a[n := spec[n]], spec, n + 1)
  {
  }

  lemma FilledAll(a: seq<int>, spec: seq<int>, n: nat)
    requires Filled(a, spec, n) && n == |spec|
    ensures a == spec
  {
  }
}
