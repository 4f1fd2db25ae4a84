/** Curve preparation in `HdRprBasisCurves` (hdRpr/basisCurves.cpp): the
    expansion of USD curve indices into line segments, the primvar size rule,
    and the building of RPR curve indices, segment counts and radii. */
module BasisCurves {
  import opened Sums
  import opened HdTypes
  import opened Wrappers

  /** The `curveWrap` token of the topology. */
  datatype CurveWrap = NonPeriodic | Periodic | Segmented | UnsupportedWrap

  /** `IsValidPrimvarSize`: constant needs at least one value, uniform one per
      curve, every other interpolation one per vertex. */
  function IsValidPrimvarSize(size: nat, interp: Interpolation, uniformSize: nat, vertexSize: nat): (ok: bool)
    ensures interp == Constant ==> (ok <==> size > 0)
    ensures interp == Uniform ==> (ok <==> size == uniformSize)
    ensures interp != Constant && interp != Uniform ==> (ok <==> size == vertexSize)
  {
    match interp
    case Constant => size > 0
    case Uniform => size == uniformSize
    case _ => size == vertexSize
  }

  /** Consecutive pairs (c[i], c[i+1]) of a line strip. */
  function LinePairs(c: seq<int>): (r: seq<int>)
    requires |c| > 0
    ensures |r| == 2 * (|c| - 1)
    ensures forall i :: 0 <= i < |c| - 1 ==> r[2 * i] == c[i] && r[2 * i + 1] == c[i + 1]
  {
    if |c| == 1 then [] else LinePairs(c[..|c| - 1]) + [c[|c| - 2], c[|c| - 1]]
  }

  /** The topology indices the curve keeps: `curveIndices` is `None` when the
      topology has no indices (`HasIndices` false), and holds a non-empty list
      otherwise. */
  function TopologyIndices(curveIndices: Option<seq<int>>, wrap: CurveWrap, numPoints: nat): (r: seq<int>)
    requires curveIndices.Some? ==> |curveIndices.value| > 0
    ensures curveIndices.None? ==> r == seq(numPoints, i => i)
    ensures curveIndices.Some? && wrap == NonPeriodic ==> r == LinePairs(curveIndices.value)
    ensures curveIndices.Some? && wrap == Periodic ==>
      var c := curveIndices.value;
      |r| == 2 * |c| && r[..2 * (|c| - 1)] == LinePairs(c) && r[2 * |c| - 2] == c[|c| - 1] && r[2 * |c| - 1] == c[0]
    ensures curveIndices.Some? && wrap == Segmented ==> r == curveIndices.value
    ensures curveIndices.Some? && wrap == UnsupportedWrap ==> r == []
  {
    match curveIndices
    case None => seq(numPoints, i => i)
    case Some(c) =>
      match wrap
      case NonPeriodic => LinePairs(c)
      case Periodic => LinePairs(c) + [c[|c| - 1], c[0]]
      case Segmented => c
      case UnsupportedWrap => []
  }

  const PointsPerSegment: nat := 4

  /** Widths vary along the curve for every interpolation other than
      constant and uniform. */
  predicate IsTapered(interp: Interpolation) {
    interp != Constant && interp != Uniform
  }

  /** The curve data handed to RPR. */
  datatype RprCurve = RprCurve(indices: seq<int>, segmentsPerCurve: seq<int>, radii: seq<real>)

  /** What `CreateRprCurve` needs from the already validated curve: room for
      every curve's vertices, and a width for every index it reads. */
  predicate Valid(indices: seq<int>, counts: seq<int>, widths: seq<real>, interp: Interpolation) {
    NonNegative(counts) && Sum(counts) <= |indices| &&
    (IsTapered(interp) ==> forall i <- indices :: 0 <= i < |widths|) &&
    (interp == Uniform ==> |counts| <= |widths|) &&
    (interp == Constant ==> |widths| > 0)
  }

  /** Tapered segments: two vertices become the four points i0,i0,i1,i1 and
      the two radii of their widths. */
  function TaperedIndices(c: seq<int>): (r: seq<int>)
    requires |c| > 0
    ensures |r| == PointsPerSegment * (|c| - 1)
    ensures forall s :: 0 <= s < |c| - 1 ==>
      r[4 * s] == c[s] && r[4 * s + 1] == c[s] && r[4 * s + 2] == c[s + 1] && r[4 * s + 3] == c[s + 1]
  {
    if |c| == 1 then [] else TaperedIndices(c[..|c| - 1]) + [c[|c| - 2], c[|c| - 2], c[|c| - 1], c[|c| - 1]]
  }

  function TaperedRadii(c: seq<int>, widths: seq<real>): (r: seq<real>)
    requires |c| > 0 && forall j :: 0 <= j < |c| ==> 0 <= c[j] < |widths|
    ensures |r| == 2 * (|c| - 1)
    ensures forall s :: 0 <= s < |c| - 1 ==> r[2 * s] == widths[c[s]] / 2.0 && r[2 * s + 1] == widths[c[s + 1]] / 2.0
  {
    if |c| == 1 then []
    else
      TaperedRadii(c[..|c| - 1], widths) + [widths[c[|c| - 2]] / 2.0, widths[c[|c| - 1]] / 2.0]
  }

  /** The number of copies of the last index that bring `n` points up to a
      multiple of four. */
  function Padding(n: nat): (p: nat)
    ensures p < PointsPerSegment && (n + p) % PointsPerSegment == 0
  {
    var extra := n % PointsPerSegment;
    if extra != 0 then PointsPerSegment - extra else 0
  }

  /** The output of one curve of `nv` vertices whose indices start at `pos`;
      a curve of at most one vertex contributes nothing. */
  function CurveOutput(indices: seq<int>, pos: nat, nv: int, iCurve: nat, widths: seq<real>, interp: Interpolation): (r: RprCurve)
    requires nv <= 1 || pos + nv <= |indices|
    requires nv > 1 && IsTapered(interp) ==> forall j :: pos <= j < pos + nv ==> 0 <= indices[j] < |widths|
    requires nv > 1 && interp == Uniform ==> iCurve < |widths|
    requires nv > 1 && interp == Constant ==> |widths| > 0
    ensures nv <= 1 ==> r == RprCurve([], [], [])
    ensures nv > 1 ==> |r.segmentsPerCurve| == 1 && r.segmentsPerCurve[0] >= 1
    ensures nv > 1 && IsTapered(interp) ==> r.segmentsPerCurve == [nv - 1] && |r.radii| == 2 * (nv - 1)
    ensures nv > 1 && !IsTapered(interp) ==>
      r.radii == [(if interp == Uniform then widths[iCurve] else widths[0]) / 2.0]
    ensures nv > 1 ==> |r.indices| >= PointsPerSegment && r.indices[0] == indices[pos] && r.indices[|r.indices| - 1] == indices[pos + nv - 1]
  {
    if nv <= 1 then RprCurve([], [], [])
    else
      var c := indices[pos..pos + nv];
      if IsTapered(interp) then
        RprCurve(TaperedIndices(c), [nv - 1], TaperedRadii(c, widths))
      else
        var pts := LinePairs(c);
        var w := if interp == Uniform then widths[iCurve] else widths[0];
        RprCurve(pts + seq(Padding(|pts|), _ => c[nv - 1]), [(|pts| + Padding(|pts|)) / PointsPerSegment], [w / 2.0])
  }

  function Concat(a: RprCurve, b: RprCurve): RprCurve {
    RprCurve(a.indices + b.indices, a.segmentsPerCurve + b.segmentsPerCurve, a.radii + b.radii)
  }

  /** `CreateRprCurve`: the curves in order, each reading its vertices at the
      running offset, which advances by the vertex count even for curves that
      emit nothing. */
  function CreateRprCurve(indices: seq<int>, counts: seq<int>, widths: seq<real>, interp: Interpolation): (r: RprCurve)
    requires Valid(indices, counts, widths, interp)
    ensures |r.segmentsPerCurve| <= |counts|
    ensures forall i :: 0 <= i < |r.segmentsPerCurve| ==> r.segmentsPerCurve[i] >= 1
    ensures (forall c <- counts :: c <= 1) ==> r == RprCurve([], [], [])
    ensures (forall c <- counts :: c > 1) ==> |r.segmentsPerCurve| == |counts|
    decreases |counts|
  {
    if |counts| == 0 then RprCurve([], [], [])
    else
      var k := |counts| - 1;
      LastCurveFits(indices, counts, widths, interp);
      assert counts[k] in counts && forall c <- counts[..k] :: c in counts;
      var pos := Sum(counts[..k]);
      Concat(CreateRprCurve(indices, counts[..k], widths, interp),
             CurveOutput(indices, pos, counts[k], k, widths, interp))
  }

  /** Every curve contributes four points per segment, so RPR's segment
      layout holds for each curve and for the whole batch. */
  lemma CurveOutputSegments(indices: seq<int>, pos: nat, nv: int, iCurve: nat, widths: seq<real>, interp: Interpolation)
    requires nv <= 1 || pos + nv <= |indices|
    requires nv > 1 && IsTapered(interp) ==> forall j :: pos <= j < pos + nv ==> 0 <= indices[j] < |widths|
    requires nv > 1 && interp == Uniform ==> iCurve < |widths|
    requires nv > 1 && interp == Constant ==> |widths| > 0
    ensures var r := CurveOutput(indices, pos, nv, iCurve, widths, interp);
      |r.indices| == PointsPerSegment * Sum(r.segmentsPerCurve) &&
      |r.segmentsPerCurve| == (if nv > 1 then 1 else 0) &&
      |r.radii| == (if IsTapered(interp) then 2 * Sum(r.segmentsPerCurve) else |r.segmentsPerCurve|)
  {
    if nv > 1 {
      var r := CurveOutput(indices, pos, nv, iCurve, widths, interp);
      assert Sum(r.segmentsPerCurve) == r.segmentsPerCurve[0] by {
        assert r.segmentsPerCurve[..0] == [];
      }
    }
  }

  /** All curves but the last form a valid batch, and the last curve can be
      read at the running offset. */
  lemma LastCurveFits(indices: seq<int>, counts: seq<int>, widths: seq<real>, interp: Interpolation)
    requires Valid(indices, counts, widths, interp) && |counts| > 0
    ensures var k := |counts| - 1; var pos := Sum(counts[..k]);
      Valid(indices, counts[..k], widths, interp) &&
      0 <= pos && (counts[k] <= 1 || pos + counts[k] <= |indices|) &&
      (counts[k] > 1 && IsTapered(interp) ==> forall j :: pos <= j < pos + counts[k] ==> 0 <= indices[j] < |widths|) &&
      (counts[k] > 1 && interp == Uniform ==> k < |widths|) &&
      (counts[k] > 1 && interp == Constant ==> |widths| > 0)
  {
    var k := |counts| - 1;
    SumPrefixBound(counts, k);
    assert counts[..k + 1] == counts;
    assert counts[k] in counts;
    var pos := Sum(counts[..k]);
    assert IsTapered(interp) ==> forall j :: pos <= j < pos + counts[k] ==> indices[j] in indices;
  }

  lemma {:induction false} CreateRprCurveSegments(indices: seq<int>, counts: seq<int>, widths: seq<real>, interp: Interpolation)
    requires Valid(indices, counts, widths, interp)
    ensures var r := CreateRprCurve(indices, counts, widths, interp);
      |r.indices| == PointsPerSegment * Sum(r.segmentsPerCurve) &&
      |r.radii| == (if IsTapered(interp) then 2 * Sum(r.segmentsPerCurve) else |r.segmentsPerCurve|) &&
      |r.segmentsPerCurve| <= |counts|
    decreases |counts|
  {
    if |counts| > 0 {
      var k := |counts| - 1;
      LastCurveFits(indices, counts, widths, interp);
      var pos := Sum(counts[..k]);
      CreateRprCurveSegments(indices, counts[..k], widths, interp);
      CurveOutputSegments(indices, pos, counts[k], k, widths, interp);
      var a := CreateRprCurve(indices, counts[..k], widths, interp);
      var b := CurveOutput(indices, pos, counts[k], k, widths, interp);
      SumAppend(a.segmentsPerCurve, b.segmentsPerCurve);
    }
  }

  /** A tapered curve segment emits i0,i0,i1,i1 with radii of half the two
      vertices' widths. */
  lemma TaperedCurveShape(indices: seq<int>, pos: nat, nv: int, widths: seq<real>, interp: Interpolation)
    requires nv > 1 && pos + nv <= |indices| && IsTapered(interp)
    requires forall j :: pos <= j < pos + nv ==> 0 <= indices[j] < |widths|
    ensures var r := CurveOutput(indices, pos, nv, 0, widths, interp);
      r.segmentsPerCurve == [nv - 1] && |r.indices| == 4 * (nv - 1) && |r.radii| == 2 * (nv - 1) &&
      forall s :: 0 <= s < nv - 1 ==>
        var i0, i1 := indices[pos + s], indices[pos + s + 1];
        r.indices[4 * s] == i0 && r.indices[4 * s + 1] == i0 && r.indices[4 * s + 2] == i1 && r.indices[4 * s + 3] == i1 &&
        r.radii[2 * s] == widths[i0] / 2.0 && r.radii[2 * s + 1] == widths[i1] / 2.0
  {
    var c := indices[pos..pos + nv];
    var r := CurveOutput(indices, pos, nv, 0, widths, interp);
    assert r.indices == TaperedIndices(c) && r.radii == TaperedRadii(c, widths);
    assert forall s :: 0 <= s < nv ==> c[s] == indices[pos + s];
  }

  /** A cylindrical curve keeps its line pairs, is padded with its last index
      up to a multiple of four, and carries the one radius of its uniform or
      constant width. */
  lemma CylindricalCurveShape(indices: seq<int>, pos: nat, nv: int, iCurve: nat, widths: seq<real>, interp: Interpolation)
    requires nv > 1 && pos + nv <= |indices| && !IsTapered(interp)
    requires interp == Uniform ==> iCurve < |widths|
    requires interp == Constant ==> |widths| > 0
    ensures var r := CurveOutput(indices, pos, nv, iCurve, widths, interp);
      |r.indices| % PointsPerSegment == 0 && 2 * (nv - 1) <= |r.indices| < 2 * (nv - 1) + PointsPerSegment &&
      r.segmentsPerCurve == [|r.indices| / PointsPerSegment] &&
      (forall s :: 0 <= s < nv - 1 ==> r.indices[2 * s] == indices[pos + s] && r.indices[2 * s + 1] == indices[pos + s + 1]) &&
      (forall j :: 2 * (nv - 1) <= j < |r.indices| ==> r.indices[j] == indices[pos + nv - 1]) &&
      r.radii == [(if interp == Uniform then widths[iCurve] else widths[0]) / 2.0]
  {
    var c := indices[pos..pos + nv];
    var pts := LinePairs(c);
    var r := CurveOutput(indices, pos, nv, iCurve, widths, interp);
    assert r.indices == pts + seq(Padding(|pts|), _ => c[nv - 1]);
    forall s | 0 <= s < nv - 1
      ensures r.indices[2 * s] == indices[pos + s] && r.indices[2 * s + 1] == indices[pos + s + 1]
    {
      assert r.indices[2 * s] == pts[2 * s];
      assert r.indices[2 * s + 1] == pts[2 * s + 1];
    }
  }

  /** The uv-interpolation warning condition as written: a disjunction of
      two inequalities against different constants. */
  function WarnsUnsupportedUvAsWritten(uvInterp: Interpolation): (warns: bool)
    ensures warns
  {
    uvInterp != Constant || uvInterp != Uniform
  }

  /** The condition evidently meant: warn unless the uv interpolation is one
      `CreateRprCurve` handles, i.e. exactly when a uv handed with a curve
      is dropped. */
  function WarnsUnsupportedUv(uvInterp: Interpolation): (warns: bool)
    ensures warns <==> CurveUvs([(0.0, 0.0)], uvInterp, [1]) == []
  {
    uvInterp != Constant && uvInterp != Uniform
  }

  /** As written, the warning fires for every interpolation, including the
      two supported ones. */
  lemma UvWarningAlwaysFires(uvInterp: Interpolation)
    ensures WarnsUnsupportedUvAsWritten(uvInterp)
    ensures WarnsUnsupportedUvAsWritten(Constant) && !WarnsUnsupportedUv(Constant)
  {
  }

  /** A texture coordinate pair. */
  type Uv = (real, real)

  /** The uvs `CreateRprCurve` hands to RPR with the curve: uniform uvs are
      passed through, a constant uv is repeated once per emitted curve, and
      any other interpolation, or no uvs at all, gives none. */
  function CurveUvs(uvs: seq<Uv>, uvInterp: Interpolation, segmentsPerCurve: seq<int>): (r: seq<Uv>)
    ensures uvs == [] ==> r == []
    ensures uvs != [] && uvInterp == Uniform ==> r == uvs
    ensures uvs != [] && uvInterp == Constant ==>
              |r| == |segmentsPerCurve| && forall i :: 0 <= i < |r| ==> r[i] == uvs[0]
    ensures uvInterp != Uniform && uvInterp != Constant ==> r == []
  {
    if uvs == [] then []
    else if uvInterp == Uniform then uvs
    else if uvInterp == Constant then seq(|segmentsPerCurve|, _ => uvs[0])
    else []
  }

  /** For a batch with uvs that emits at least one curve, the corrected
      warning fires exactly when the curve is handed no uvs, which happens for
      every interpolation other than constant and uniform. */
  lemma UvWarningMatchesSupport(indices: seq<int>, counts: seq<int>, widths: seq<real>, interp: Interpolation,
                                uvs: seq<Uv>, uvInterp: Interpolation)
    requires Valid(indices, counts, widths, interp)
    requires uvs != [] && |CreateRprCurve(indices, counts, widths, interp).segmentsPerCurve| > 0
    ensures WarnsUnsupportedUv(uvInterp) <==> CurveUvs(uvs, uvInterp, CreateRprCurve(indices, counts, widths, interp).segmentsPerCurve) == []
    ensures !WarnsUnsupportedUv(uvInterp) <==> uvInterp in {Constant, Uniform}
  {
  }
}
