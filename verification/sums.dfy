/** Sums of integer sequences, shared by the index transforms that walk
    a face or curve list with a running offset. */
module Sums {

  /** Total of a vertex-count list, accumulated from the back. */
  function Sum(s: seq<int>): int {
    if |s| == 0 then 0 else Sum(s[..|s| - 1]) + s[|s| - 1]
  }

  predicate NonNegative(s: seq<int>) {
    forall v <- s :: v >= 0
  }

  lemma {:induction false} SumPrefixBound(vpf: seq<int>, i: nat)
    requires NonNegative(vpf) && i <= |vpf|
    ensures 0 <= Sum(vpf[..i]) <= Sum(vpf)
    ensures NonNegative(vpf[..i])
    decreases |vpf|
  {
    assert forall v <- vpf[..i] :: v in vpf;
    if |vpf| > 0 {
      var init := vpf[..|vpf| - 1];
      assert forall v <- init :: v in vpf;
      assert vpf[|vpf| - 1] in vpf;
      if i < |vpf| {
        assert init[..i] == vpf[..i];
        SumPrefixBound(init, i);
      } else {
        SumPrefixBound(init, |vpf| - 1);
        assert init[..|vpf| - 1] == init;
        assert vpf[..i] == vpf;
      }
    }
  }

  lemma {:induction false} SumAppend(a: seq<int>, b: seq<int>)
    ensures Sum(a + b) == Sum(a) + Sum(b)
    decreases |b|
  {
    if |b| > 0 {
      assert (a + b)[..|a + b| - 1] == a + b[..|b| - 1];
      SumAppend(a, b[..|b| - 1]);
    } else {
      assert a + b == a;
    }
  }
}
