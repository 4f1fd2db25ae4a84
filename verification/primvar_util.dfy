/** Primvar helpers of the delegate (hdRpr/primvarUtil.cpp): parsing the
    `primvars:rpr:*` geometry settings, collecting primvar descriptors per
    interpolation, looking a primvar up, and validating primvar sizes. */
module PrimvarUtil {
  import opened Wrappers
  import opened HdTypes

  /** A constant primvar's value as the scene delegate hands it over. */
  datatype PrimvarValue = PInt(i: int) | PBool(b: bool) | PReal(r: real) | PString(s: string)

  /** The visibility kinds, one per `kVisible*` flag. */
  datatype VisibilityKind = Primary | Shadow | Reflection | GlossyReflection | Refraction | GlossyRefraction | Diffuse | Transparent

  /** The recognised `primvars:rpr:*` names; every other name is ignored. */
  datatype SettingName =
    | ObjectId | SubdivisionLevel | SubdivisionCreaseWeight | IgnoreContour | AssetName | DeformSamples
    | Visibility(kind: VisibilityKind) | Unrecognised

  /** One constant primvar: its recognised name and, if the delegate holds a
      value for it, that value. */
  datatype ConstantPrimvar = ConstantPrimvar(name: SettingName, value: Option<PrimvarValue>)

  datatype GeometrySettings = GeometrySettings(
    id: int, subdivisionLevel: int, subdivisionCreaseWeight: real, ignoreContour: bool,
    cryptomatteName: string, numGeometrySamples: int, visibilityMask: bv32)

  const MaxSubdivisionLevel: int := 7

  /** `std::max(0, std::min(level, 7))`. */
  function ClampSubdivision(level: int): (r: int)
    ensures 0 <= r <= MaxSubdivisionLevel
    ensures 0 <= level <= MaxSubdivisionLevel ==> r == level
    ensures level < 0 ==> r == 0
    ensures level > MaxSubdivisionLevel ==> r == MaxSubdivisionLevel
  {
    if level < 0 then 0 else if level > MaxSubdivisionLevel then MaxSubdivisionLevel else level
  }

  /** Raising a flag sets its bits and leaves every other bit as it was. */
  function SetBits(mask: bv32, flag: bv32): (r: bv32)
    ensures r & flag == flag
    ensures r & !flag == mask & !flag
  {
    mask | flag
  }

  /** Clearing a flag zeroes its bits and leaves every other bit as it was. */
  function ClearBits(mask: bv32, flag: bv32): (r: bv32)
    ensures r & flag == 0
    ensures r & !flag == mask & !flag
  {
    mask & !flag
  }

  /** The visibility lambda: nothing when the value cannot be read as a bool,
      else the flag is set for true and cleared for false. */
  function SetVisibilityFlag(mask: bv32, value: Option<PrimvarValue>, flag: bv32): (r: bv32)
    ensures !(value.Some? && value.value.PBool?) ==> r == mask
    ensures value == Some(PBool(true)) ==> r == SetBits(mask, flag)
    ensures value == Some(PBool(false)) ==> r == ClearBits(mask, flag)
  {
    if value.Some? && value.value.PBool? then
      if value.value.b then SetBits(mask, flag) else ClearBits(mask, flag)
    else mask
  }

  /** One iteration of the loop over the constant primvars; `flagOf` gives
      the bit of each visibility kind. */
  function ApplyPrimvar(g: GeometrySettings, p: ConstantPrimvar, flagOf: VisibilityKind -> bv32): (r: GeometrySettings)
    ensures p.name.SubdivisionLevel? && p.value.Some? && p.value.value.PInt? ==>
      r == g.(subdivisionLevel := ClampSubdivision(p.value.value.i))
    ensures p.name.DeformSamples? ==> r.numGeometrySamples >= 1
    ensures p.name.DeformSamples? && p.value.Some? && p.value.value.PInt? ==>
      r.numGeometrySamples == (if p.value.value.i < 1 then 1 else p.value.value.i)
    ensures p.name.Visibility? ==> r == g.(visibilityMask := SetVisibilityFlag(g.visibilityMask, p.value, flagOf(p.name.kind)))
    ensures p.name.Unrecognised? || p.value.None? ==> r.(numGeometrySamples := g.numGeometrySamples) == g
    ensures !p.name.Visibility? ==> r.visibilityMask == g.visibilityMask
  {
    match p.name
    case ObjectId =>
      if p.value.Some? && p.value.value.PInt? then g.(id := p.value.value.i) else g
    case SubdivisionLevel =>
      if p.value.Some? && p.value.value.PInt? then g.(subdivisionLevel := ClampSubdivision(p.value.value.i)) else g
    case SubdivisionCreaseWeight =>
      if p.value.Some? && p.value.value.PReal? then g.(subdivisionCreaseWeight := p.value.value.r) else g
    case IgnoreContour =>
      if p.value.Some? && p.value.value.PBool? then g.(ignoreContour := p.value.value.b) else g
    case AssetName =>
      if p.value.Some? && p.value.value.PString? then g.(cryptomatteName := p.value.value.s) else g
    case DeformSamples =>
      var n := if p.value.Some? && p.value.value.PInt? then p.value.value.i else g.numGeometrySamples;
      g.(numGeometrySamples := if n < 1 then 1 else n)
    case Visibility(kind) =>
      g.(visibilityMask := SetVisibilityFlag(g.visibilityMask, p.value, flagOf(kind)))
    case Unrecognised => g
  }

  /** `HdRprParseGeometrySettings`: the primvars applied in order. */
  function ParseGeometrySettings(g: GeometrySettings, ps: seq<ConstantPrimvar>, flagOf: VisibilityKind -> bv32): (r: GeometrySettings)
    ensures ps == [] ==> r == g
    ensures (forall p <- ps :: p.name.Unrecognised?) ==> r == g
    ensures (forall p <- ps :: !p.name.Visibility?) ==> r.visibilityMask == g.visibilityMask
    decreases |ps|
  {
    if |ps| == 0 then g
    else
      assert forall p <- ps[..|ps| - 1] :: p in ps;
      ApplyPrimvar(ParseGeometrySettings(g, ps[..|ps| - 1], flagOf), ps[|ps| - 1], flagOf)
  }

  /** Starting from an in-range subdivision level, parsing keeps it in
      [0, 7]; a parsed deform-samples primvar leaves at least one sample. */
  lemma {:induction false} ParseKeepsRanges(g: GeometrySettings, ps: seq<ConstantPrimvar>, flagOf: VisibilityKind -> bv32)
    requires 0 <= g.subdivisionLevel <= MaxSubdivisionLevel
    ensures 0 <= ParseGeometrySettings(g, ps, flagOf).subdivisionLevel <= MaxSubdivisionLevel
    ensures (exists p <- ps :: p.name.DeformSamples?) || g.numGeometrySamples >= 1 ==>
      ParseGeometrySettings(g, ps, flagOf).numGeometrySamples >= 1
    decreases |ps|
  {
    if |ps| > 0 {
      var init := ps[..|ps| - 1];
      ParseKeepsRanges(g, init, flagOf);
      if (exists p <- ps :: p.name.DeformSamples?) && !ps[|ps| - 1].name.DeformSamples? {
        var p :| p in ps && p.name.DeformSamples?;
        var k :| 0 <= k < |ps| && ps[k] == p;
        assert init[k] == p;
      }
    }
  }

  /** A visibility primvar that is absent (or not a bool) leaves the mask
      alone, so an empty list of primvars changes nothing. */
  lemma {:induction false} ParseWithoutVisibilityKeepsMask(g: GeometrySettings, ps: seq<ConstantPrimvar>, flagOf: VisibilityKind -> bv32)
    requires forall p <- ps :: !p.name.Visibility?
    ensures ParseGeometrySettings(g, ps, flagOf).visibilityMask == g.visibilityMask
    decreases |ps|
  {
    if |ps| > 0 {
      assert forall p <- ps[..|ps| - 1] :: p in ps;
      assert ps[|ps| - 1] in ps;
      ParseWithoutVisibilityKeepsMask(g, ps[..|ps| - 1], flagOf);
    }
  }

  /** A primvar descriptor: its name and role. */
  datatype PrimvarDesc = PrimvarDesc(name: string, role: string)

  /** The per-interpolation descriptor map; `InterpolationCount` keys the
      dummy entry. */
  type DescMap = map<Interpolation, seq<PrimvarDesc>>

  /** The map built from the delegate's descriptors, one entry per
      interpolation that has any. */
  function CollectDescs(query: Interpolation -> seq<PrimvarDesc>, interps: seq<Interpolation>): (m: DescMap)
    ensures forall i :: i in m <==> i in interps && |query(i)| > 0
    ensures forall i <- m :: m[i] == query(i)
  {
    if |interps| == 0 then map[]
    else
      var last := interps[|interps| - 1];
      var prev := CollectDescs(query, interps[..|interps| - 1]);
      if |query(last)| > 0 then prev[last := query(last)] else prev
  }

  /** `HdRprFillPrimvarDescsPerInterpolation`: a non-empty map is left
      alone; otherwise it is filled from the delegate, and a dummy empty entry
      under `InterpolationCount` marks "queried, nothing found". */
  function FillPrimvarDescsPerInterpolation(m: DescMap, query: Interpolation -> seq<PrimvarDesc>): (r: DescMap)
    ensures |m| > 0 ==> r == m
    ensures |m| == 0 ==> |r| > 0
    ensures |m| == 0 && (forall i <- Interpolations :: |query(i)| == 0) ==> r == map[InterpolationCount := []]
    ensures |m| == 0 && (exists i <- Interpolations :: |query(i)| > 0) ==> r == CollectDescs(query, Interpolations)
  {
    if |m| > 0 then m
    else
      var c := CollectDescs(query, Interpolations);
      if |c| == 0 then
        map[InterpolationCount := []]
      else c
  }

  /** Filling twice asks the delegate only once: the second call is a no-op. */
  lemma FillIsIdempotent(m: DescMap, query: Interpolation -> seq<PrimvarDesc>, query2: Interpolation -> seq<PrimvarDesc>)
    ensures var once := FillPrimvarDescsPerInterpolation(m, query);
      FillPrimvarDescsPerInterpolation(once, query2) == once
  {
  }

  /** The enum order in which `std::map` iterates the keys. */
  const KeyOrder: seq<Interpolation> := Interpolations + [InterpolationCount]

  predicate HasName(descs: seq<PrimvarDesc>, name: string) {
    exists d <- descs :: d.name == name
  }

  /** `HdRprIsPrimvarExists` over the keys from `order`: the first key, in
      order, whose descriptors name the primvar. */
  function FindPrimvar(m: DescMap, name: string, order: seq<Interpolation>): (r: Option<Interpolation>)
    ensures r.Some? ==> r.value in order && r.value in m && HasName(m[r.value], name)
    ensures r.None? <==> forall i <- order :: i in m ==> !HasName(m[i], name)
    ensures r.Some? ==> exists k :: 0 <= k < |order| && order[k] == r.value &&
                                   forall j :: 0 <= j < k ==> order[j] in m ==> !HasName(m[order[j]], name)
  {
    if |order| == 0 then None
    else if order[0] in m && HasName(m[order[0]], name) then Some(order[0])
    else
      var r := FindPrimvar(m, name, order[1..]);
      assert forall i <- order :: i == order[0] || i in order[1..];
      if r.Some? then
        ghost var k :| 0 <= k < |order[1..]| && order[1..][k] == r.value &&
          forall j :: 0 <= j < k ==> order[1..][j] in m ==> !HasName(m[order[1..][j]], name);
        assert order[k + 1] == r.value;
        r
      else r
  }

  lemma KeyOrderIsComplete()
    ensures forall i: Interpolation :: i in KeyOrder
  {
    forall i: Interpolation
      ensures i in KeyOrder
    {
      assert KeyOrder == [Constant, Uniform, Varying, Vertex, FaceVarying, Instance, InterpolationCount];
      match i
      case Constant => assert KeyOrder[0] == i;
      case Uniform => assert KeyOrder[1] == i;
      case Varying => assert KeyOrder[2] == i;
      case Vertex => assert KeyOrder[3] == i;
      case FaceVarying => assert KeyOrder[4] == i;
      case Instance => assert KeyOrder[5] == i;
      case InterpolationCount => assert KeyOrder[6] == i;
    }
  }

  /** `HdRprIsPrimvarExists`. */
  function IsPrimvarExists(m: DescMap, name: string): (r: Option<Interpolation>)
    ensures r.None? <==> forall i <- m :: !HasName(m[i], name)
    ensures r.Some? ==> r.value in m && HasName(m[r.value], name)
  {
    var r := FindPrimvar(m, name, KeyOrder);
    KeyOrderIsComplete();
    r
  }

  /** `HdRprFindFirstPrimvarRole`: the first descriptor, in key order and
      then list order, with the given role. */
  function FindFirstRole(m: DescMap, role: string, order: seq<Interpolation>): (r: Option<PrimvarDesc>)
    ensures r.Some? ==> r.value.role == role && exists i <- order :: i in m && r.value in m[i]
    ensures r.None? <==> forall i <- order, d :: i in m && d in m[i] ==> d.role != role
  {
    if |order| == 0 then None
    else
      var here := FirstWithRole(if order[0] in m then m[order[0]] else [], role);
      if here.Some? then here
      else
        assert forall i <- order :: i == order[0] || i in order[1..];
        FindFirstRole(m, role, order[1..])
  }

  function FirstWithRole(descs: seq<PrimvarDesc>, role: string): (r: Option<PrimvarDesc>)
    ensures r.Some? ==> r.value in descs && r.value.role == role
    ensures r.None? <==> forall d <- descs :: d.role != role
    ensures r.Some? ==> exists k :: 0 <= k < |descs| && descs[k] == r.value && forall j :: 0 <= j < k ==> descs[j].role != role
  {
    if |descs| == 0 then None
    else if descs[0].role == role then Some(descs[0])
    else
      var r := FirstWithRole(descs[1..], role);
      assert forall d <- descs :: d == descs[0] || d in descs[1..];
      if r.Some? then
        ghost var k :| 0 <= k < |descs[1..]| && descs[1..][k] == r.value && forall j :: 0 <= j < k ==> descs[1..][j].role != role;
        assert descs[k + 1] == r.value;
        r
      else r
  }

  /** `HdRprIsValidPrimvarSize`: constant needs a value, uniform one per
      face, vertex one per point, varying is always accepted, and every other
      interpolation is rejected. */
  function IsValidPrimvarSize(size: nat, interp: Interpolation, uniformSize: nat, vertexSize: nat): (ok: bool)
    ensures ok ==> interp in {Constant, Uniform, Vertex, Varying}
    ensures interp == Varying ==> ok
    ensures interp == Constant ==> (ok <==> size > 0)
    ensures interp == Uniform ==> (ok <==> size == uniformSize)
    ensures interp == Vertex ==> (ok <==> size == vertexSize)
  {
    match interp
    case Constant => size > 0
    case Uniform => size == uniformSize
    case Vertex => size == vertexSize
    case Varying => true
    case _ => false
  }
}
