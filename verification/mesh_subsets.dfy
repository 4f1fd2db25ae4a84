/** Geometry-subset handling in `HdRprMesh::Sync` (hdRpr/mesh.cpp): the
    extra subset of faces no authored subset uses, the per-face index offsets,
    the re-indexing of one subset into a mesh of its own, and the
    face-varying primvar indices. */
module MeshSubsets {
  import opened Sums

  /** A geometry subset: whether its type is `TypeFaceSet`, the material
      bound to it and the faces it holds. */
  datatype Subset = Subset(faceSet: bool, materialId: string, faces: seq<int>)

  /** The number of `true` entries. */
  function CountTrue(s: seq<bool>): (n: nat)
    ensures n <= |s|
  {
    if |s| == 0 then 0 else CountTrue(s[..|s| - 1]) + (if s[|s| - 1] then 1 else 0)
  }

  lemma {:induction false} CountTrueClear(s: seq<bool>, k: nat)
    requires k < |s| && s[k]
    ensures CountTrue(s[k := false]) == CountTrue(s) - 1
    decreases |s|
  {
    var t := s[k := false];
    if k < |s| - 1 {
      assert t[..|t| - 1] == s[..|s| - 1][k := false];
      CountTrueClear(s[..|s| - 1], k);
    } else {
      assert t[..|t| - 1] == s[..|s| - 1];
    }
  }

  /** Face `f` is used when some subset lists it. */
  predicate IsUsed(subsets: seq<Subset>, f: int) {
    exists s <- subsets :: f in s.faces
  }

  /** All the face indices of the subsets, in order. */
  function AllFaces(subsets: seq<Subset>): (r: seq<int>)
    ensures forall f :: f in r <==> IsUsed(subsets, f)
  {
    if |subsets| == 0 then []
    else
      var r := AllFaces(subsets[..|subsets| - 1]) + subsets[|subsets| - 1].faces;
      assert forall s <- subsets[..|subsets| - 1] :: s in subsets;
      assert forall f :: IsUsed(subsets, f) ==> IsUsed(subsets[..|subsets| - 1], f) || f in subsets[|subsets| - 1].faces by {
        forall f | IsUsed(subsets, f)
          ensures IsUsed(subsets[..|subsets| - 1], f) || f in subsets[|subsets| - 1].faces
        {
          var s :| s in subsets && f in s.faces;
          var k :| 0 <= k < |subsets| && subsets[k] == s;
          if k < |subsets| - 1 {
            assert subsets[..|subsets| - 1][k] == s;
          }
        }
      }
      r
  }

  /** The source's marking loop: every face starts unused; a listed face
      below `numFaces` is marked used and the unused count drops, but only
      the first time that face is seen.  Indices at or beyond `numFaces`
      are skipped. */
  method MarkUsedFaces(numFaces: nat, subsets: seq<Subset>) returns (faceIsUnused: seq<bool>, numUnused: nat)
    requires forall s <- subsets, f <- s.faces :: f >= 0
    ensures |faceIsUnused| == numFaces
    ensures forall f :: 0 <= f < numFaces ==> (faceIsUnused[f] <==> !IsUsed(subsets, f))
    ensures numUnused == CountTrue(faceIsUnused)
  {
    var all := AllFaces(subsets);
    faceIsUnused := seq(numFaces, _ => true);
    numUnused := numFaces;
    AllTrueCount(numFaces);
    for i := 0 to |all|
      invariant |faceIsUnused| == numFaces
      invariant forall f :: 0 <= f < numFaces ==> (faceIsUnused[f] <==> f !in all[..i])
      invariant numUnused == CountTrue(faceIsUnused)
    {
      var index := all[i];
      assert all[..i + 1] == all[..i] + [index];
      assert index >= 0 by {
        assert IsUsed(subsets, index);
      }
      if index < numFaces && faceIsUnused[index] {
        CountTrueClear(faceIsUnused, index);
        faceIsUnused := faceIsUnused[index := false];
        numUnused := numUnused - 1;
      }
    }
    assert all[..|all|] == all;
  }

  lemma {:induction false} AllTrueCount(n: nat)
    ensures CountTrue(seq(n, _ => true)) == n
  {
    if n > 0 {
      assert seq(n, _ => true)[..n - 1] == seq(n - 1, _ => true);
      AllTrueCount(n - 1);
    }
  }

  /** The indices of the unused faces in ascending order. */
  function UnusedFaces(faceIsUnused: seq<bool>): (r: seq<int>)
    ensures |r| == CountTrue(faceIsUnused)
    ensures forall i, j :: 0 <= i < j < |r| ==> r[i] < r[j]
    ensures forall f :: f in r <==> 0 <= f < |faceIsUnused| && faceIsUnused[f]
  {
    if |faceIsUnused| == 0 then []
    else
      var n := |faceIsUnused| - 1;
      var prev := UnusedFaces(faceIsUnused[..n]);
      assert forall i :: 0 <= i < |prev| ==> prev[i] in prev;
      prev + (if faceIsUnused[n] then [n] else [])
  }

  /** The subsets after completion: when the mesh has subsets and some face
      is in none of them, one more subset holding exactly those faces, in
      ascending order, with the mesh's own material. */
  function CompleteSubsets(subsets: seq<Subset>, faceIsUnused: seq<bool>, numUnused: nat, meshMaterial: string): (r: seq<Subset>)
    requires numUnused == CountTrue(faceIsUnused)
    ensures |subsets| == 0 || numUnused == 0 ==> r == subsets
    ensures |subsets| > 0 && numUnused > 0 ==>
      r == subsets + [Subset(true, meshMaterial, UnusedFaces(faceIsUnused))]
  {
    if |subsets| > 0 && numUnused > 0 then subsets + [Subset(true, meshMaterial, UnusedFaces(faceIsUnused))]
    else subsets
  }

  /** With the marking loop, the completed subsets cover every face below
      `numFaces`, and the added subset holds only faces nobody listed. */
  lemma CompletionCoversEveryFace(numFaces: nat, subsets: seq<Subset>, faceIsUnused: seq<bool>, numUnused: nat, meshMaterial: string)
    requires |subsets| > 0
    requires |faceIsUnused| == numFaces
    requires forall f :: 0 <= f < numFaces ==> (faceIsUnused[f] <==> !IsUsed(subsets, f))
    requires numUnused == CountTrue(faceIsUnused)
    ensures forall f :: 0 <= f < numFaces ==> IsUsed(CompleteSubsets(subsets, faceIsUnused, numUnused, meshMaterial), f)
    ensures forall f <- UnusedFaces(faceIsUnused) :: !IsUsed(subsets, f)
  {
    var r := CompleteSubsets(subsets, faceIsUnused, numUnused, meshMaterial);
    forall f | 0 <= f < numFaces
      ensures IsUsed(r, f)
    {
      if IsUsed(subsets, f) {
        var s :| s in subsets && f in s.faces;
        assert s in r;
      } else {
        assert f in UnusedFaces(faceIsUnused);
        assert r[|r| - 1] in r;
      }
    }
  }

  /** The start of every face's indices: the sum of the vertex counts of the
      faces before it. */
  function PrefixOffsets(vpf: seq<int>): (r: seq<int>)
    ensures |r| == |vpf|
    ensures forall i :: 0 <= i < |vpf| ==> r[i] == Sum(vpf[..i])
  {
    if |vpf| == 0 then []
    else
      var n := |vpf| - 1;
      assert vpf[..n][..n] == vpf[..n];
      var prev := PrefixOffsets(vpf[..n]);
      assert forall i :: 0 <= i < n ==> vpf[..n][..i] == vpf[..i];
      prev + [Sum(vpf[..n])]
  }

  /** The source's running-offset loop computes the same offsets. */
  method PrefixOffsetsLoop(vpf: seq<int>) returns (offsets: seq<int>)
    ensures offsets == PrefixOffsets(vpf)
  {
    offsets := [];
    var offset := 0;
    for i := 0 to |vpf|
      invariant |offsets| == i && offset == Sum(vpf[..i])
      invariant forall k :: 0 <= k < i ==> offsets[k] == Sum(vpf[..k])
    {
      offsets := offsets + [offset];
      assert vpf[..i + 1][..i] == vpf[..i];
      offset := offset + vpf[i];
    }
    assert vpf[..|vpf|] == vpf;
  }

  /** The vertex-index slice of face `f`. */
  function FaceSlice(indexes: seq<int>, vpf: seq<int>, f: nat): (r: seq<int>)
    requires WellFormedMesh(indexes, vpf) && f < |vpf|
    ensures |r| == vpf[f]
    ensures 0 <= Sum(vpf[..f]) && Sum(vpf[..f]) + vpf[f] <= |indexes|
    ensures forall k :: 0 <= k < |r| ==> r[k] == indexes[Sum(vpf[..f]) + k]
  {
    SumPrefixBound(vpf, f);
    SumPrefixBound(vpf, f + 1);
    assert vpf[..f + 1][..f] == vpf[..f];
    assert Sum(vpf[..f + 1]) == Sum(vpf[..f]) + vpf[f];
    assert Sum(vpf[..f + 1]) <= |indexes| && vpf[f] in vpf;
    indexes[Sum(vpf[..f])..Sum(vpf[..f]) + vpf[f]]
  }

  /** Appending a face to a mesh leaves the earlier faces' slices alone. */
  lemma FaceSliceAppend(indexes: seq<int>, vpf: seq<int>, face: seq<int>, f: nat)
    requires WellFormedMesh(indexes, vpf) && f < |vpf|
    requires WellFormedMesh(indexes + face, vpf + [|face|])
    ensures FaceSlice(indexes + face, vpf + [|face|], f) == FaceSlice(indexes, vpf, f)
  {
    assert (vpf + [|face|])[..f] == vpf[..f];
    SumPrefixBound(vpf, f + 1);
    assert vpf[..f + 1][..f] == vpf[..f];
  }

  /** The appended face is the last face's slice. */
  lemma FaceSliceLast(indexes: seq<int>, vpf: seq<int>, face: seq<int>)
    requires WellFormedMesh(indexes, vpf) && Sum(vpf) == |indexes|
    requires WellFormedMesh(indexes + face, vpf + [|face|])
    ensures FaceSlice(indexes + face, vpf + [|face|], |vpf|) == face
  {
    assert (vpf + [|face|])[..|vpf|] == vpf;
  }

  predicate WellFormedMesh(indexes: seq<int>, vpf: seq<int>) {
    NonNegative(vpf) && Sum(vpf) <= |indexes|
  }

  /** One subset extracted as a mesh of its own. */
  datatype SubMesh = SubMesh(indexes: seq<int>, vertexPerFace: seq<int>, pointIndices: seq<int>)

  /** The re-indexing of one subset: the subset's faces become a mesh whose
      vertex counts are copied from the source faces, whose indices run
      0, 1, 2, ... in order, and whose i-th point is the source point named
      by the i-th gathered vertex index. */
  function ExtractSubset(indexes: seq<int>, vpf: seq<int>, faces: seq<int>): (r: SubMesh)
    requires WellFormedMesh(indexes, vpf)
    requires forall j :: 0 <= j < |faces| ==> 0 <= faces[j] < |vpf|
    ensures |r.vertexPerFace| == |faces|
    ensures forall j :: 0 <= j < |faces| ==> r.vertexPerFace[j] == vpf[faces[j]]
    ensures r.indexes == seq(|r.pointIndices|, i => i)
    ensures |r.pointIndices| == Sum(r.vertexPerFace)
    ensures WellFormedMesh(r.pointIndices, r.vertexPerFace)
    ensures forall j :: 0 <= j < |faces| ==> FaceSlice(r.pointIndices, r.vertexPerFace, j) == FaceSlice(indexes, vpf, faces[j])
  {
    if |faces| == 0 then SubMesh([], [], [])
    else
      var n := |faces| - 1;
      var prev := ExtractSubset(indexes, vpf, faces[..n]);
      var face := FaceSlice(indexes, vpf, faces[n]);
      assert vpf[faces[n]] in vpf;
      var pts := prev.pointIndices + face;
      SumAppend(prev.vertexPerFace, [vpf[faces[n]]]);
      assert Sum([vpf[faces[n]]]) == vpf[faces[n]] by { assert [vpf[faces[n]]][..0] == []; }
      var counts := prev.vertexPerFace + [vpf[faces[n]]];
      assert forall j :: 0 <= j < n ==> faces[..n][j] == faces[j];
      GatherStep(indexes, vpf, faces, prev.vertexPerFace, prev.pointIndices, counts, pts);
      SubMesh(seq(|pts|, i => i), counts, pts)
  }

  /** One step of the gathering: with the first faces gathered, appending
      the slice of the next face keeps every earlier face's slice and makes
      the new face the last one. */
  lemma GatherStep(indexes: seq<int>, vpf: seq<int>, faces: seq<int>, counts: seq<int>, pts: seq<int>,
                   counts': seq<int>, pts': seq<int>)
    requires WellFormedMesh(indexes, vpf)
    requires |faces| > 0 && forall j :: 0 <= j < |faces| ==> 0 <= faces[j] < |vpf|
    requires |counts| == |faces| - 1 && WellFormedMesh(pts, counts) && |pts| == Sum(counts)
    requires forall j :: 0 <= j < |counts| ==> FaceSlice(pts, counts, j) == FaceSlice(indexes, vpf, faces[j])
    requires counts' == counts + [vpf[faces[|counts|]]]
    requires pts' == pts + FaceSlice(indexes, vpf, faces[|counts|])
    ensures WellFormedMesh(pts', counts')
    ensures forall j :: 0 <= j < |faces| ==> FaceSlice(pts', counts', j) == FaceSlice(indexes, vpf, faces[j])
  {
    var n := |counts|;
    var face := FaceSlice(indexes, vpf, faces[n]);
    assert vpf[faces[n]] in vpf;
    assert forall c <- counts' :: c in counts || c == vpf[faces[n]];
    SumAppend(counts, [vpf[faces[n]]]);
    assert Sum([vpf[faces[n]]]) == vpf[faces[n]] by { assert [vpf[faces[n]]][..0] == []; }
    forall j | 0 <= j < |faces|
      ensures FaceSlice(pts', counts', j) == FaceSlice(indexes, vpf, faces[j])
    {
      if j < n {
        FaceSliceAppend(pts, counts, face, j);
      } else {
        FaceSliceLast(pts, counts, face);
      }
    }
  }

  /** The gathered point indices are the faces' own index slices, in subset
      order. */
  lemma ExtractSubsetGathersFaces(indexes: seq<int>, vpf: seq<int>, faces: seq<int>)
    requires WellFormedMesh(indexes, vpf)
    requires |faces| > 0 && forall j :: 0 <= j < |faces| ==> 0 <= faces[j] < |vpf|
    ensures var n := |faces| - 1;
      ExtractSubset(indexes, vpf, faces).pointIndices ==
        ExtractSubset(indexes, vpf, faces[..n]).pointIndices + FaceSlice(indexes, vpf, faces[n])
  {
  }

  /** Every face a subset names is a face of the mesh. */
  predicate FacesInRange(subsets: seq<Subset>, numFaces: nat) {
    forall k :: 0 <= k < |subsets| ==> SubsetInRange(subsets[k], numFaces)
  }

  predicate SubsetInRange(s: Subset, numFaces: nat) {
    forall j :: 0 <= j < |s.faces| ==> 0 <= s.faces[j] < numFaces
  }

  /** A mesh `Sync` creates: the whole mesh, or one subset re-indexed as a
      mesh of its own; either way with the material it is bound to. */
  datatype MeshOut = WholeMesh(materialId: string) | SubsetMesh(materialId: string, mesh: SubMesh)

  /** The loop over several subsets: each face set becomes a mesh of its
      own, in subset order; a subset of any other type is skipped with a
      warning. */
  function ExtractFaceSets(indexes: seq<int>, vpf: seq<int>, subsets: seq<Subset>): (r: seq<MeshOut>)
    requires WellFormedMesh(indexes, vpf) && FacesInRange(subsets, |vpf|)
    ensures |r| <= |subsets|
    ensures forall k :: 0 <= k < |r| ==> r[k].SubsetMesh?
    ensures (forall k :: 0 <= k < |subsets| ==> !subsets[k].faceSet) ==> r == []
    decreases |subsets|
  {
    if subsets == [] then []
    else
      FacesInRangeTail(subsets, |vpf|);
      var rest := ExtractFaceSets(indexes, vpf, subsets[1..]);
      if subsets[0].faceSet then [SubsetMesh(subsets[0].materialId, ExtractSubset(indexes, vpf, subsets[0].faces))] + rest
      else rest
  }

  /** When every subset is a face set, the k-th mesh is the k-th subset
      re-indexed, with that subset's material. */
  lemma {:induction false} AllFaceSetsExtracted(indexes: seq<int>, vpf: seq<int>, subsets: seq<Subset>)
    requires WellFormedMesh(indexes, vpf) && FacesInRange(subsets, |vpf|)
    requires forall k :: 0 <= k < |subsets| ==> subsets[k].faceSet
    ensures var r := ExtractFaceSets(indexes, vpf, subsets);
      |r| == |subsets| &&
      forall k :: 0 <= k < |r| ==> r[k] == SubsetMesh(subsets[k].materialId, ExtractSubset(indexes, vpf, subsets[k].faces))
    decreases |subsets|
  {
    if subsets != [] {
      FacesInRangeTail(subsets, |vpf|);
      AllFaceSetsExtracted(indexes, vpf, subsets[1..]);
    }
  }

  /** One more subset after the others adds its own mesh when it is a face
      set and nothing otherwise. */
  lemma {:induction false} ExtractFaceSetsAppend(indexes: seq<int>, vpf: seq<int>, subsets: seq<Subset>, s: Subset)
    requires WellFormedMesh(indexes, vpf) && FacesInRange(subsets, |vpf|) && SubsetInRange(s, |vpf|)
    ensures FacesInRange(subsets + [s], |vpf|)
    ensures ExtractFaceSets(indexes, vpf, subsets + [s]) ==
      ExtractFaceSets(indexes, vpf, subsets) +
      (if s.faceSet then [SubsetMesh(s.materialId, ExtractSubset(indexes, vpf, s.faces))] else [])
    decreases |subsets|
  {
    FacesInRangeAppend(subsets, s, |vpf|);
    if subsets != [] {
      FacesInRangeTail(subsets, |vpf|);
      assert (subsets + [s])[1..] == subsets[1..] + [s];
      ExtractFaceSetsAppend(indexes, vpf, subsets[1..], s);
    }
  }

  lemma FacesInRangeTail(subsets: seq<Subset>, numFaces: nat)
    requires FacesInRange(subsets, numFaces) && subsets != []
    ensures FacesInRange(subsets[1..], numFaces) && SubsetInRange(subsets[0], numFaces)
    ensures forall k :: 0 <= k < |subsets| - 1 ==> subsets[1..][k] == subsets[k + 1]
  {
  }

  lemma FacesInRangeAppend(subsets: seq<Subset>, s: Subset, numFaces: nat)
    requires FacesInRange(subsets, numFaces) && SubsetInRange(s, numFaces)
    ensures FacesInRange(subsets + [s], numFaces)
  {
    assert forall k :: 0 <= k < |subsets| ==> (subsets + [s])[k] == subsets[k];
    assert (subsets + [s])[|subsets|] == s;
  }

  /** The meshes `Sync` creates from the (completed) subsets: without
      subsets, the whole mesh with the mesh's material; with exactly one,
      the whole mesh with that subset's material, whatever faces or type it
      has; with more, one mesh per face set. */
  function BuildMeshes(indexes: seq<int>, vpf: seq<int>, subsets: seq<Subset>, meshMaterial: string): (r: seq<MeshOut>)
    requires WellFormedMesh(indexes, vpf) && FacesInRange(subsets, |vpf|)
    ensures |r| <= |subsets| || |r| == 1
    ensures (exists k :: 0 <= k < |r| && r[k].WholeMesh?) <==> |subsets| <= 1
    ensures |subsets| <= 1 ==> r == [WholeMesh(if subsets == [] then meshMaterial else subsets[0].materialId)]
    ensures |subsets| > 1 ==> r == ExtractFaceSets(indexes, vpf, subsets)
  {
    if |subsets| <= 1 then
      var r := [WholeMesh(if subsets == [] then meshMaterial else subsets[0].materialId)];
      assert r[0].WholeMesh?;
      r
    else ExtractFaceSets(indexes, vpf, subsets)
  }

  /** Subsets that are not face sets only matter by their number: among
      several subsets they add no mesh, but a lone one still gives the whole
      mesh its material. */
  lemma NonFaceSetAddsNoMesh(indexes: seq<int>, vpf: seq<int>, subsets: seq<Subset>, s: Subset, meshMaterial: string)
    requires WellFormedMesh(indexes, vpf) && FacesInRange(subsets, |vpf|) && SubsetInRange(s, |vpf|)
    requires |subsets| >= 2 && !s.faceSet
    ensures FacesInRange(subsets + [s], |vpf|)
    ensures BuildMeshes(indexes, vpf, subsets + [s], meshMaterial) == BuildMeshes(indexes, vpf, subsets, meshMaterial)
  {
    ExtractFaceSetsAppend(indexes, vpf, subsets, s);
  }

  /** Face-varying primvars are indexed 0, 1, ... over the face-vertex list. */
  function FaceVaryingIndices(indexes: seq<int>): (r: seq<int>)
    ensures |r| == |indexes| && forall i :: 0 <= i < |r| ==> r[i] == i
  {
    seq(|indexes|, i => i)
  }
}
