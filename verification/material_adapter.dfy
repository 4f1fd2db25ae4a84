/** The legacy UsdPreviewSurface adapter (plugin/hdRpr/materialAdapter.cpp):
    texture channel and wrap tokens, fallback parameters, the reflection
    workflow choice and the inverted opacity texture. */
module MaterialAdapter {
  import opened Wrappers

  datatype ColorChannel = ChannelNone | Rgba | Rgb | R | G | B | A

  /** `GetChannel`: the six channel tokens; anything else is NONE. */
  function GetChannel(token: string): (c: ColorChannel)
    ensures c == ChannelNone <==> token !in {"rgba", "rgb", "r", "g", "b", "a"}
    ensures c != ChannelNone ==> ChannelToken(c) == token
  {
    if token == "rgba" then Rgba
    else if token == "rgb" then Rgb
    else if token == "r" then R
    else if token == "g" then G
    else if token == "b" then B
    else if token == "a" then A
    else ChannelNone
  }

  function ChannelToken(c: ColorChannel): string
    requires c != ChannelNone
  {
    match c
    case Rgba => "rgba"
    case Rgb => "rgb"
    case R => "r"
    case G => "g"
    case B => "b"
    case A => "a"
  }

  /** Every channel is read back from its own token. */
  lemma ChannelTokensRoundTrip(c: ColorChannel)
    requires c != ChannelNone
    ensures GetChannel(ChannelToken(c)) == c
  {
  }

  /** A material parameter value by the type it holds. */
  datatype Value = TokenV(token: string) | IntV(i: int) | FloatV(f: real) | Vec3V(x: real, y: real, z: real) | Vec4V(v: seq<real>) | OtherV

  type Params = map<string, Value>

  datatype WrapMode = WrapNone | Black | Clamp | Mirror | Repeat

  /** `GetWrapMode`: a missing parameter, a non-token or an unknown token
      is NONE. */
  function GetWrapMode(params: Params, key: string): (w: WrapMode)
    ensures key !in params || !params[key].TokenV? ==> w == WrapNone
    ensures w == WrapNone <==> key !in params || !params[key].TokenV? ||
                               params[key].token !in {"black", "clamp", "mirror", "repeat"}
  {
    if key !in params || !params[key].TokenV? then WrapNone
    else
      var t := params[key].token;
      if t == "black" then Black
      else if t == "clamp" then Clamp
      else if t == "mirror" then Mirror
      else if t == "repeat" then Repeat
      else WrapNone
  }

  /** The UsdPreviewSurface defaults, in the order they are emplaced
      (`opacityThreshold` is emplaced twice; the second is a no-op). */
  const Fallbacks: seq<(string, Value)> := [
    ("diffuseColor", Vec3V(0.18, 0.18, 0.18)),
    ("emissiveColor", Vec3V(0.0, 0.0, 0.0)),
    ("useSpecularWorkflow", IntV(0)),
    ("specularColor", Vec3V(0.0, 0.0, 0.0)),
    ("metallic", FloatV(0.0)),
    ("roughness", FloatV(0.5)),
    ("clearcoat", FloatV(0.0)),
    ("clearcoatRoughness", FloatV(0.01)),
    ("opacity", FloatV(1.0)),
    ("opacityThreshold", FloatV(0.0)),
    ("ior", FloatV(1.5)),
    ("opacityThreshold", FloatV(0.0))]

  /** `std::map::emplace` of each entry in turn: a key already present
      keeps its value. */
  function EmplaceAll(params: Params, entries: seq<(string, Value)>): (r: Params)
    ensures forall k :: k in params ==> k in r && r[k] == params[k]
    ensures forall k :: k in r <==> k in params || exists j :: 0 <= j < |entries| && entries[j].0 == k
    decreases |entries|
  {
    if |entries| == 0 then params
    else
      var e := entries[0];
      var next := if e.0 in params then params else params[e.0 := e.1];
      var r := EmplaceAll(next, entries[1..]);
      assert forall j :: 1 <= j < |entries| ==> entries[j] == entries[1..][j - 1];
      r
  }

  /** A key absent from the authored parameters gets the first fallback
      listed for it. */
  lemma {:induction false} FirstFallbackWins(params: Params, entries: seq<(string, Value)>, j: nat)
    requires j < |entries| && entries[j].0 !in params
    requires forall i :: 0 <= i < j ==> entries[i].0 != entries[j].0
    ensures EmplaceAll(params, entries)[entries[j].0] == entries[j].1
    decreases j
  {
    var e := entries[0];
    var next := if e.0 in params then params else params[e.0 := e.1];
    if j > 0 {
      FirstFallbackWins(next, entries[1..], j - 1);
    }
  }

  /** The authored parameters with the UsdPreviewSurface fallbacks added:
      authored values are never overridden. */
  function WithFallbacks(authored: Params): (r: Params)
    ensures forall k :: k in authored ==> k in r && r[k] == authored[k]
    ensures forall j :: 0 <= j < |Fallbacks| ==> Fallbacks[j].0 in r
  {
    EmplaceAllCovers(authored, Fallbacks);
    EmplaceAll(authored, Fallbacks)
  }

  /** Every emplaced key ends up in the map. */
  lemma EmplaceAllCovers(params: Params, entries: seq<(string, Value)>)
    ensures forall j :: 0 <= j < |entries| ==> entries[j].0 in EmplaceAll(params, entries)
  {
    var r := EmplaceAll(params, entries);
    forall j | 0 <= j < |entries|
      ensures entries[j].0 in r
    {
      assert exists i :: 0 <= i < |entries| && entries[i].0 == entries[j].0;
    }
  }

  /** A texture bound to a UsdPreviewSurface input. */
  datatype Texture = Texture(path: string, channel: ColorChannel, wrapS: WrapMode, wrapT: WrapMode,
                             scale: seq<real>, bias: seq<real>)

  predicate IsVec4(v: seq<real>) { |v| == 4 }

  /** The texture feeding the refraction weight: since refraction is one
      minus the diffuse weight, the bias becomes one minus the bias and the
      scale is negated. */
  function InvertedTexture(t: Texture): (r: Texture)
    requires IsVec4(t.scale) && IsVec4(t.bias)
    ensures IsVec4(r.scale) && IsVec4(r.bias)
    ensures r.path == t.path && r.channel == t.channel && r.wrapS == t.wrapS && r.wrapT == t.wrapT
    ensures forall i :: 0 <= i < 4 ==> r.bias[i] == 1.0 - t.bias[i] && r.scale[i] == -t.scale[i]
  {
    t.(bias := seq(4, i requires 0 <= i < 4 => 1.0 - t.bias[i]),
       scale := seq(4, i requires 0 <= i < 4 => -t.scale[i]))
  }

  /** For any texel the inverted texture yields one minus what the original
      yields, and inverting twice gives the texture back. */
  lemma InvertedTextureComplements(t: Texture, texel: seq<real>)
    requires IsVec4(t.scale) && IsVec4(t.bias) && IsVec4(texel)
    ensures var r := InvertedTexture(t);
      forall i :: 0 <= i < 4 ==> r.scale[i] * texel[i] + r.bias[i] == 1.0 - (t.scale[i] * texel[i] + t.bias[i])
    ensures InvertedTexture(InvertedTexture(t)) == t
  {
    var r2 := InvertedTexture(InvertedTexture(t));
    assert r2.bias == t.bias;
    assert r2.scale == t.scale;
  }

  datatype ReflectionMode = IorModePbr | IorModeMetalness

  /** What feeds the uber material's reflection colour. */
  datatype ColorSource = FromTexture(texture: Texture) | FromColor(color: seq<real>)

  /** `useSpecularWorkflow` read with `Get<int>`: a non-int reads as 0. */
  function UseSpecular(params: Params): (u: int)
    ensures "useSpecularWorkflow" in params && params["useSpecularWorkflow"].IntV? ==> u == params["useSpecularWorkflow"].i
    ensures !("useSpecularWorkflow" in params && params["useSpecularWorkflow"].IntV?) ==> u == 0
  {
    if "useSpecularWorkflow" in params && params["useSpecularWorkflow"].IntV? then params["useSpecularWorkflow"].i else 0
  }

  /** The reflection set-up at the end of `PopulateUsdPreviewSurface`: the
      specular workflow uses PBR mode and the specular colour (texture
      first); otherwise metalness mode and the albedo. */
  function Reflection(useSpecular: int, albedoColor: seq<real>, albedoTex: Option<Texture>,
                      reflectionColor: seq<real>, reflectionTex: Option<Texture>): (r: (ReflectionMode, ColorSource))
    ensures r.0 == IorModePbr <==> useSpecular != 0
    ensures useSpecular != 0 ==> r.1 == (if reflectionTex.Some? then FromTexture(reflectionTex.value) else FromColor(reflectionColor))
    ensures useSpecular == 0 ==> r.1 == (if albedoTex.Some? then FromTexture(albedoTex.value) else FromColor(albedoColor))
  {
    if useSpecular != 0 then
      (IorModePbr, if reflectionTex.Some? then FromTexture(reflectionTex.value) else FromColor(reflectionColor))
    else
      (IorModeMetalness, if albedoTex.Some? then FromTexture(albedoTex.value) else FromColor(albedoColor))
  }

  /** With the fallbacks in place an unauthored workflow reads as 0, which
      selects metalness mode. */
  lemma DefaultWorkflowIsMetalness(authored: Params)
    requires "useSpecularWorkflow" !in authored
    ensures UseSpecular(WithFallbacks(authored)) == 0
  {
    var f := Fallbacks;
    assert f[0].0 == "diffuseColor" && f[1].0 == "emissiveColor";
    assert f[2] == ("useSpecularWorkflow", IntV(0));
    FirstFallbackWins(authored, f, 2);
  }
}
