/** Sizes of sets: ranges of integers, subsets, and the pigeonhole principle. */
module Counting {

  /** The n integers from a on. */
  function Range(a: int, n: nat): (s: set<int>)
    ensures (forall u :: u in s <==> a <= u < a + n) && |s| == n
  {
    if n == 0 then {} else Range(a, n - 1) + {a + n - 1}
  }

  ghost predicate NoRepeats(s: seq<int>) { forall i, j :: 0 <= i < j < |s| ==> s[i] != s[j] }

  lemma {:induction false} Pigeon(s: seq<int>, holes: set<int>)
    requires NoRepeats(s) && forall i :: 0 <= i < |s| ==> s[i] in holes
    ensures |s| <= |holes|
    decreases |s|
  {
    if |s| > 0 {
      Pigeon(s[1..], holes - {s[0]});
    }
  }

  lemma SubsetSize<T>(a: set<T>, b: set<T>)
    requires a <= b
    ensures |a| <= |b|
  {
    assert b == a + (b - a);
  }
}
