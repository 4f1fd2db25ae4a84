/** The UsdPreviewSurface helper nodes (rprUsd/materialNodes/usdNode.cpp):
    UsdUVTexture, UsdPrimvarReader_float2 and UsdTransform2d. */
module UsdNode {
  import opened Wrappers
  import ArithmeticNode

  /** A Hydra parameter value, by the type it holds. */
  datatype Param =
    | TokenParam(token: string)
    | AssetParam(assetPath: string, resolvedPath: string)
    | Vec4Param(v4: seq<real>)
    | Vec2Param(x: real, y: real)
    | FloatParam(f: real)
    | OtherParam

  type Params = map<string, Param>

  /** `rpr::ImageWrapType`; `WrapUnset` is the zero value `{}`. */
  datatype WrapType = WrapUnset | ClampZero | ClampToEdge | MirroredRepeat | Repeat

  /** `GetWrapType`: the four wrap tokens; anything else is the zero value
      (an unknown token is also reported). */
  function GetWrapType(value: Param): (w: WrapType)
    ensures !value.TokenParam? ==> w == WrapUnset
    ensures w == WrapUnset <==> !value.TokenParam? || value.token !in {"black", "clamp", "mirror", "repeat"}
  {
    if !value.TokenParam? then WrapUnset
    else if value.token == "black" then ClampZero
    else if value.token == "clamp" then ClampToEdge
    else if value.token == "mirror" then MirroredRepeat
    else if value.token == "repeat" then Repeat
    else WrapUnset
  }

  /** The token each wrap type is read from: `GetWrapType`'s inverse. */
  function WrapToken(w: WrapType): (t: string)
    requires w != WrapUnset
    ensures GetWrapType(TokenParam(t)) == w
  {
    match w
    case ClampZero => "black"
    case ClampToEdge => "clamp"
    case MirroredRepeat => "mirror"
    case Repeat => "repeat"
  }

  function WrapOf(params: Params, key: string): WrapType {
    if key in params then GetWrapType(params[key]) else WrapUnset
  }

  /** RPR has one wrap mode per image: wrapS wins when set, else wrapT; the
      second result says a mismatch is reported. */
  function ChooseWrap(wrapS: WrapType, wrapT: WrapType): (r: (WrapType, bool))
    ensures wrapS != WrapUnset ==> r.0 == wrapS
    ensures wrapS == WrapUnset ==> r.0 == wrapT
    ensures r.1 <==> wrapS != wrapT
    ensures r.0 == WrapUnset <==> wrapS == WrapUnset && wrapT == WrapUnset
  {
    if wrapS != WrapUnset || wrapT != WrapUnset then
      (if wrapS != WrapUnset then wrapS else wrapT, wrapS != wrapT)
    else (WrapUnset, false)
  }

  /** What the texture node hands to the material registry. */
  datatype TextureCommit = TextureCommit(filepath: string, forceLinearSpace: bool, wrapType: WrapType)

  /** An output of the texture node: the image node, possibly wrapped by the
      scale and bias arithmetic nodes, or a channel selected from it. */
  datatype Out = ImageOut | MulOut(inner: Out) | AddOut(inner: Out) | SelectOut(channel: string, inner: Out)

  datatype UvTexture = UvTexture(commit: TextureCommit, outputs: map<string, Out>)

  /** The file the texture reads: the resolved path when there is one. */
  function FilePath(file: Param): (p: string)
    ensures !file.AssetParam? ==> p == ""
    ensures file.AssetParam? && file.resolvedPath != "" ==> p == file.resolvedPath
    ensures file.AssetParam? && file.resolvedPath == "" ==> p == file.assetPath
  {
    if !file.AssetParam? then ""
    else if file.resolvedPath == "" then file.assetPath
    else file.resolvedPath
  }

  /** `GfIsEqual`'s default tolerance. */
  const Tolerance: real := 0.00001

  /** `GfIsEqual(v, GfVec4f(x))`: every component within the tolerance of
      `x`. */
  predicate NearAll(v: seq<real>, x: real) {
    |v| == 4 && forall i :: 0 <= i < 4 ==> -Tolerance <= v[i] - x <= Tolerance
  }

  /** The parameter `key` is a four-vector that is not neutral, i.e. not
      within the tolerance of `x` in every component. */
  predicate Effective(params: Params, key: string, x: real) {
    key in params && params[key].Vec4Param? && !NearAll(params[key].v4, x)
  }

  /** `RprUsd_UsdUVTexture`'s constructor. The missing or empty file path
      and a failed image node are node errors. `imageNodeCreated` stands
      for the RPR call creating the image node; `scaleBuilt` and `biasBuilt`
      for whether the scale and the bias arithmetic nodes end with a
      non-empty output (`ArithmeticNode.GetOutput`); a node without one is
      dropped and the rgba output stays as it was. */
  function NewUvTexture(params: Params, imageNodeCreated: bool, scaleBuilt: bool, biasBuilt: bool): (r: Result<UvTexture, string>)
    ensures "file" !in params ==> r == Failure("UsdUVTexture requires file parameter")
    ensures "file" in params && FilePath(params["file"]) == "" ==> r == Failure("UsdUVTexture: empty file path")
    ensures r.Success? <==> "file" in params && FilePath(params["file"]) != "" && imageNodeCreated
    ensures r.Success? ==> r.value.commit.filepath == FilePath(params["file"])
    ensures r.Success? ==> (r.value.commit.forceLinearSpace <==>
      "colorSpace" in params && params["colorSpace"] == TokenParam("linear"))
    ensures r.Success? ==> r.value.commit.wrapType == ChooseWrap(WrapOf(params, "wrapS"), WrapOf(params, "wrapT")).0
    ensures r.Success? ==> r.value.outputs.Keys == {"rgba"}
    ensures r.Success? ==> (r.value.outputs["rgba"].AddOut? <==> Effective(params, "bias", 0.0) && biasBuilt)
    ensures r.Success? ==>
      var rgba := r.value.outputs["rgba"];
      var underBias := if rgba.AddOut? then rgba.inner else rgba;
      (underBias == MulOut(ImageOut) <==> Effective(params, "scale", 1.0) && scaleBuilt) &&
      (underBias == ImageOut <==> !(Effective(params, "scale", 1.0) && scaleBuilt))
  {
    if "file" !in params then Failure("UsdUVTexture requires file parameter")
    else
      var path := FilePath(params["file"]);
      if path == "" then Failure("UsdUVTexture: empty file path")
      else if !imageNodeCreated then Failure("Failed to create image texture material node")
      else
        var linear := "colorSpace" in params && params["colorSpace"] == TokenParam("linear");
        var wrap := ChooseWrap(WrapOf(params, "wrapS"), WrapOf(params, "wrapT")).0;
        var scaled := if Effective(params, "scale", 1.0) && scaleBuilt then MulOut(ImageOut) else ImageOut;
        var biased := if Effective(params, "bias", 0.0) && biasBuilt then AddOut(scaled) else scaled;
        Success(UvTexture(TextureCommit(path, linear, wrap), map["rgba" := biased]))
  }

  /** A texture whose scale and bias are absent or neutral within the
      tolerance outputs the image node itself, whatever the arithmetic
      nodes would do. */
  lemma NeutralTextureOutputsImage(params: Params, scaleBuilt: bool, biasBuilt: bool)
    requires "file" in params && FilePath(params["file"]) != ""
    requires !Effective(params, "scale", 1.0) && !Effective(params, "bias", 0.0)
    ensures NewUvTexture(params, true, scaleBuilt, biasBuilt).Success?
    ensures NewUvTexture(params, true, scaleBuilt, biasBuilt).value.outputs["rgba"] == ImageOut
  {
  }

  /** A scale that differs from one by less than the tolerance is neutral:
      no scale node is put in front of the image. */
  lemma ScaleWithinToleranceIsNeutral(path: string)
    requires path != ""
    ensures var params := map["file" := AssetParam(path, ""), "scale" := Vec4Param([1.000001, 1.0, 1.0, 0.999999])];
      NewUvTexture(params, true, true, true) == Success(UvTexture(TextureCommit(path, false, WrapUnset), map["rgba" := ImageOut]))
  {
    var params := map["file" := AssetParam(path, ""), "scale" := Vec4Param([1.000001, 1.0, 1.0, 0.999999])];
    assert NearAll(params["scale"].v4, 1.0);
  }

  function ChannelOp(outputId: string): (r: Option<string>)
    ensures r.Some? <==> outputId in {"r", "g", "b", "a"}
  {
    if outputId == "r" then Some("RPR_MATERIAL_NODE_OP_SELECT_X")
    else if outputId == "g" then Some("RPR_MATERIAL_NODE_OP_SELECT_Y")
    else if outputId == "b" then Some("RPR_MATERIAL_NODE_OP_SELECT_Z")
    else if outputId == "a" then Some("RPR_MATERIAL_NODE_OP_SELECT_W")
    else None
  }

  /** `GetOutput`: `rgb` is `rgba`; a known output is returned from the
      cache; a channel output is built by a select node and cached when that
      node ends with a non-empty output (`selectBuilt`); anything else is
      empty. */
  function GetOutput(t: UvTexture, outputId: string, selectBuilt: bool): (r: (Option<Out>, UvTexture))
    requires "rgba" in t.outputs
    ensures "rgba" in r.1.outputs && r.1.commit == t.commit
    ensures outputId == "rgb" ==> r.0 == Some(t.outputs["rgba"]) && r.1 == t
    ensures outputId != "rgb" && outputId in t.outputs ==> r.0 == Some(t.outputs[outputId]) && r.1 == t
    ensures outputId != "rgb" && outputId !in t.outputs ==>
      (r.0.Some? <==> outputId in {"r", "g", "b", "a"} && selectBuilt)
    ensures r.0.Some? ==> outputId in r.1.outputs || outputId == "rgb"
    ensures r.0.Some? && outputId != "rgb" ==> r.1.outputs[outputId] == r.0.value
    ensures r.0.None? ==> r.1 == t
    ensures forall k :: k in t.outputs ==> k in r.1.outputs && r.1.outputs[k] == t.outputs[k]
  {
    if outputId == "rgb" then (Some(t.outputs["rgba"]), t)
    else if outputId in t.outputs then (Some(t.outputs[outputId]), t)
    else match ChannelOp(outputId)
      case None => (None, t)
      case Some(op) =>
        if selectBuilt then
          var out := SelectOut(outputId, t.outputs["rgba"]);
          (Some(out), t.(outputs := t.outputs[outputId := out]))
        else (None, t)
  }

  /** A channel output is built once: asking again returns the cached node
      and changes nothing, whether or not another select node could be
      built. */
  lemma ChannelOutputCached(t: UvTexture, channel: string, firstBuilt: bool, againBuilt: bool)
    requires "rgba" in t.outputs
    requires GetOutput(t, channel, firstBuilt).0.Some?
    ensures var (first, t1) := GetOutput(t, channel, firstBuilt);
      GetOutput(t1, channel, againBuilt) == (first, t1)
  {
  }

  /** The scale, bias and select nodes all take the rgba output, an RPR
      material node, as their first argument. Under the written output test
      of `ArithmeticNode.GetOutputAsWritten`, such a node whose RPR calls
      all succeed ends with an empty output, while the corrected test keeps
      it: as written, these nodes are dropped and the channel outputs are
      empty exactly when nothing fails. */
  lemma HelperNodesEmptyAsWritten(n: ArithmeticNode.Node, c: ArithmeticNode.EngineCalls)
    requires ArithmeticNode.Valid(n) && ArithmeticNode.WellFormedCalls(c)
    requires n.arity >= 1 && n.args[0].MaterialNodeArg?
    requires forall i :: 0 <= i < ArithmeticNode.MaxArity ==> c.inputSet[i]
    ensures !ArithmeticNode.InputsTrivial(n)
    ensures ArithmeticNode.AllInputsSet(n, c) && !ArithmeticNode.InputsPassAsWritten(n, c)
  {
    ArithmeticNode.SuccessfulSetsLoseOutputAsWritten(n, c);
  }

  /** `SetInput`: only `st` is passed on, to the image node's UV input,
      and the result is `SetRprInput`'s: `valueSupported` says whether the
      value holds a type `SetRprInput` knows (an unknown type is reported
      and refused) and `rprCallOk` whether the RPR call succeeds. */
  function UvTextureSetInput(inputId: string, valueSupported: bool, rprCallOk: bool): (accepted: bool)
    ensures inputId != "st" ==> !accepted
    ensures inputId == "st" ==> (accepted <==> valueSupported && rprCallOk)
  {
    inputId == "st" && valueSupported && rprCallOk
  }

  /** `RprUsd_UsdPrimvarReader`: a non-empty `varname` token names the
      primvar read as UVs; otherwise the context's name is kept. */
  function PrimvarReaderUvName(params: Params, uvPrimvarName: string): (r: string)
    ensures "varname" in params && params["varname"].TokenParam? && params["varname"].token != "" ==>
      r == params["varname"].token
    ensures !("varname" in params && params["varname"].TokenParam? && params["varname"].token != "") ==>
      r == uvPrimvarName
  {
    if "varname" in params && params["varname"].TokenParam? && params["varname"].token != "" then
      params["varname"].token
    else uvPrimvarName
  }

  /** The primvar reader accepts no inputs. */
  function PrimvarReaderSetInput(inputId: string): (accepted: bool)
    ensures !accepted
  {
    false
  }

  /** The transform a UsdTransform2d applies: rotation in degrees, scale and
      translation, each at its default unless authored with the right type. */
  datatype Transform2d = Transform2d(rotation: real, scaleX: real, scaleY: real, translateX: real, translateY: real)

  function ReadTransform2d(params: Params): (t: Transform2d)
    ensures ("rotation" in params && params["rotation"].FloatParam?) ==> t.rotation == params["rotation"].f
    ensures !("rotation" in params && params["rotation"].FloatParam?) ==> t.rotation == 0.0
    ensures ("scale" in params && params["scale"].Vec2Param?) ==>
      t.scaleX == params["scale"].x && t.scaleY == params["scale"].y
    ensures !("scale" in params && params["scale"].Vec2Param?) ==> t.scaleX == 1.0 && t.scaleY == 1.0
    ensures ("translation" in params && params["translation"].Vec2Param?) ==>
      t.translateX == params["translation"].x && t.translateY == params["translation"].y
    ensures !("translation" in params && params["translation"].Vec2Param?) ==> t.translateX == 0.0 && t.translateY == 0.0
  {
    var rot := if "rotation" in params && params["rotation"].FloatParam? then params["rotation"].f else 0.0;
    var sc := if "scale" in params && params["scale"].Vec2Param? then params["scale"] else Vec2Param(1.0, 1.0);
    var tr := if "translation" in params && params["translation"].Vec2Param? then params["translation"] else Vec2Param(0.0, 0.0);
    Transform2d(rot, sc.x, sc.y, tr.x, tr.y)
  }

  /** The node is empty (`RprUsd_NodeEmpty`) when it would not move any UV:
      no rotation, unit scale and no translation. */
  function NewTransform2d(params: Params): (r: Option<Transform2d>)
    ensures r.None? <==> ReadTransform2d(params) == Transform2d(0.0, 1.0, 1.0, 0.0, 0.0)
    ensures r.Some? ==> r.value == ReadTransform2d(params)
  {
    var t := ReadTransform2d(params);
    if t == Transform2d(0.0, 1.0, 1.0, 0.0, 0.0) then None else Some(t)
  }

  /** Parameters of the wrong type are ignored, so they too give an empty
      node. */
  lemma UntypedTransformIsEmpty(params: Params)
    requires forall k :: k in params ==> params[k] == OtherParam
    ensures NewTransform2d(params).None?
  {
  }
}
