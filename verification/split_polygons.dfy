/** `SplitPolygons` (hdRpr/rprApi.cpp): rewrites a polygon mesh's face
    vertex indices so that every face is a triangle or a quad.  Faces of 3 or
    4 vertices are kept; a face of n vertices otherwise becomes the n-2
    triangles (k, k+1, k+2) over its consecutive vertices. */
module SplitPolygons {
  import opened Sums

  /** What the source demands of its input: no negative count and enough
      indices for every face. */
  predicate WellFormed(indexes: seq<int>, vpf: seq<int>) {
    NonNegative(vpf) && 0 <= Sum(vpf) <= |indexes|
  }

  /** Every prefix of a well-formed face list is well formed. */
  lemma PrefixWellFormed(indexes: seq<int>, vpf: seq<int>, i: nat)
    requires WellFormed(indexes, vpf) && i <= |vpf|
    ensures WellFormed(indexes, vpf[..i])
    ensures 0 <= Sum(vpf[..i]) <= Sum(vpf)
  {
    SumPrefixBound(vpf, i);
  }

  predicate IsQuadOrTriangle(n: int) { n == 3 || n == 4 }

  /** The first k triangles of a strip starting at `pos`. */
  function Strip(indexes: seq<int>, pos: nat, k: nat): (r: seq<int>)
    requires k == 0 || pos + k + 2 <= |indexes|
    ensures |r| == 3 * k
    ensures forall t :: 0 <= t < k ==>
      r[3 * t] == indexes[pos + t] && r[3 * t + 1] == indexes[pos + t + 1] && r[3 * t + 2] == indexes[pos + t + 2]
  {
    if k == 0 then []
    else Strip(indexes, pos, k - 1) + [indexes[pos + k - 1], indexes[pos + k], indexes[pos + k + 1]]
  }

  /** The index output for one face of `n` vertices starting at `pos`. */
  function FaceIndices(indexes: seq<int>, pos: nat, n: nat): (r: seq<int>)
    requires pos + n <= |indexes|
    ensures IsQuadOrTriangle(n) ==> r == indexes[pos..pos + n]
    ensures !IsQuadOrTriangle(n) && n >= 2 ==> |r| == 3 * (n - 2)
    ensures !IsQuadOrTriangle(n) && n >= 2 ==> forall t :: 0 <= t < n - 2 ==>
      r[3 * t] == indexes[pos + t] && r[3 * t + 1] == indexes[pos + t + 1] && r[3 * t + 2] == indexes[pos + t + 2]
    ensures n < 3 ==> r == []
  {
    if IsQuadOrTriangle(n) then indexes[pos..pos + n]
    else if n < 3 then []
    else Strip(indexes, pos, n - 2)
  }

  /** The vertex-count output for one face. */
  function FaceCounts(n: nat): (r: seq<int>)
    ensures IsQuadOrTriangle(n) ==> r == [n]
    ensures !IsQuadOrTriangle(n) && n >= 2 ==> |r| == n - 2
    ensures n < 3 ==> r == []
    ensures forall c <- r :: IsQuadOrTriangle(c)
  {
    if IsQuadOrTriangle(n) then [n]
    else if n < 3 then []
    else seq(n - 2, _ => 3)
  }

  /** The four-argument overload: new indices and new vertex counts.  A mesh
      of triangles and quads passes through unchanged, and a face that is
      not one never survives as a count. */
  function Split(indexes: seq<int>, vpf: seq<int>): (r: (seq<int>, seq<int>))
    requires WellFormed(indexes, vpf)
    ensures (forall c <- vpf :: IsQuadOrTriangle(c)) ==> r == (indexes[..Sum(vpf)], vpf)
    ensures forall c <- r.1 :: c in vpf || c == 3
    decreases |vpf|
  {
    if |vpf| == 0 then ([], [])
    else
      var init := vpf[..|vpf| - 1];
      assert vpf[|vpf| - 1] in vpf;
      assert forall c <- init :: c in vpf;
      PrefixWellFormed(indexes, vpf, |vpf| - 1);
      var prev := Split(indexes, init);
      var n := vpf[|vpf| - 1];
      assert vpf == init + [n];
      assert indexes[..Sum(init)] + indexes[Sum(init)..Sum(init) + n] == indexes[..Sum(vpf)];
      (prev.0 + FaceIndices(indexes, Sum(init), n), prev.1 + FaceCounts(n))
  }

  /** The three-argument overload, defined on its own: indices only.  A mesh
      of triangles and quads keeps its indices. */
  function SplitIndices(indexes: seq<int>, vpf: seq<int>): (r: seq<int>)
    requires WellFormed(indexes, vpf)
    ensures (forall c <- vpf :: IsQuadOrTriangle(c)) ==> r == indexes[..Sum(vpf)]
    decreases |vpf|
  {
    if |vpf| == 0 then []
    else
      var init := vpf[..|vpf| - 1];
      assert vpf[|vpf| - 1] in vpf;
      assert forall c <- init :: c in vpf;
      PrefixWellFormed(indexes, vpf, |vpf| - 1);
      var n := vpf[|vpf| - 1];
      assert indexes[..Sum(init)] + indexes[Sum(init)..Sum(init) + n] == indexes[..Sum(vpf)];
      SplitIndices(indexes, init) + (if IsQuadOrTriangle(n) then indexes[Sum(init)..Sum(init) + n]
                                     else if n < 3 then [] else Strip(indexes, Sum(init), n - 2))
  }

  /** Every output count is 3 or 4, and the counts add up to the number of
      output indices. */
  lemma {:induction false} SplitCountsAreTrianglesAndQuads(indexes: seq<int>, vpf: seq<int>)
    requires WellFormed(indexes, vpf)
    ensures forall c <- Split(indexes, vpf).1 :: IsQuadOrTriangle(c)
    ensures Sum(Split(indexes, vpf).1) == |Split(indexes, vpf).0|
    decreases |vpf|
  {
    if |vpf| > 0 {
      var init := vpf[..|vpf| - 1];
      assert vpf[|vpf| - 1] in vpf;
      PrefixWellFormed(indexes, vpf, |vpf| - 1);
      SplitCountsAreTrianglesAndQuads(indexes, init);
      var n := vpf[|vpf| - 1];
      SumAppend(Split(indexes, init).1, FaceCounts(n));
      FaceCountsSum(indexes, Sum(init), n);
    }
  }

  lemma FaceCountsSum(indexes: seq<int>, pos: nat, n: nat)
    requires pos + n <= |indexes|
    ensures Sum(FaceCounts(n)) == |FaceIndices(indexes, pos, n)|
  {
    if !IsQuadOrTriangle(n) && n >= 3 {
      AllThreesSum(n - 2);
    }
  }

  lemma {:induction false} AllThreesSum(k: nat)
    ensures Sum(seq(k, _ => 3)) == 3 * k
  {
    if k > 0 {
      assert seq(k, _ => 3)[..k - 1] == seq(k - 1, _ => 3);
      AllThreesSum(k - 1);
    }
  }

  /** The index-only overload yields the same indices as the full one. */
  lemma {:induction false} SplitIndicesAgree(indexes: seq<int>, vpf: seq<int>)
    requires WellFormed(indexes, vpf)
    ensures SplitIndices(indexes, vpf) == Split(indexes, vpf).0
    decreases |vpf|
  {
    if |vpf| > 0 {
      assert vpf[|vpf| - 1] in vpf;
      PrefixWellFormed(indexes, vpf, |vpf| - 1);
      SplitIndicesAgree(indexes, vpf[..|vpf| - 1]);
    }
  }

  /** The body of the source's loop for one face of `n` vertices read from
      `pos`: the pushes of indices and of vertex counts. */
  method PushFace(indexes: seq<int>, pos: nat, n: nat) returns (idx: seq<int>, counts: seq<int>)
    requires pos + n <= |indexes|
    ensures idx == FaceIndices(indexes, pos, n) && counts == FaceCounts(n)
  {
    idx := [];
    counts := [];
    if n == 3 || n == 4 {
      var i := 0;
      while i < n
        invariant 0 <= i <= n
        invariant idx == indexes[pos..pos + i]
      {
        idx := idx + [indexes[pos + i]];
        i := i + 1;
        assert indexes[pos..pos + i] == indexes[pos..pos + i - 1] + [indexes[pos + i - 1]];
      }
      counts := [n];
    } else {
      var i := 0;
      while i < n - 2
        invariant 0 <= i <= (if n >= 2 then n - 2 else 0)
        invariant idx == Strip(indexes, pos, i)
        invariant counts == seq(i, _ => 3)
      {
        idx := idx + [indexes[pos + i], indexes[pos + i + 1], indexes[pos + i + 2]];
        counts := counts + [3];
        i := i + 1;
      }
    }
  }

  /** The source's loop: one pass over the faces with a running read
      position. */
  method SplitPolygonsLoop(indexes: seq<int>, vpf: seq<int>) returns (newIndexes: seq<int>, newVpf: seq<int>)
    requires WellFormed(indexes, vpf)
    ensures (newIndexes, newVpf) == Split(indexes, vpf)
  {
    newIndexes := [];
    newVpf := [];
    var pos := 0;
    for f := 0 to |vpf|
      invariant WellFormed(indexes, vpf[..f])
      invariant pos == Sum(vpf[..f])
      invariant (newIndexes, newVpf) == Split(indexes, vpf[..f])
    {
      PrefixWellFormed(indexes, vpf, f + 1);
      assert vpf[..f + 1][..f] == vpf[..f];
      assert vpf[f] in vpf;
      var n := vpf[f];
      assert n >= 0 by { assert NonNegative(vpf); }
      var idx, counts := PushFace(indexes, pos, n);
      newIndexes := newIndexes + idx;
      newVpf := newVpf + counts;
      pos := pos + n;
    }
    assert vpf[..|vpf|] == vpf;
  }
}
