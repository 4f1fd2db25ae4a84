/** `HdRprAovRegistry` (hdRpr/aovDescriptor.cpp): the table of AOV
    descriptors indexed by RPR AOV id, the table of computed AOVs, and the
    map from AOV names to entries of either table. */
module AovRegistry {
  import opened HdTypes

  datatype Descriptor = Descriptor(id: int, format: HdFormat, multiSampled: bool, computed: bool)

  /** `kInvalidDesc`: a default-constructed descriptor, whose id is
      `kAovNone` converted to `uint32_t`. */
  const InvalidId: int := 0xFFFF_FFFF
  const InvalidDesc: Descriptor := Descriptor(InvalidId, Float32Vec4, true, false)

  // ComputedAovs
  const NdcDepth: nat := 0
  const ColorAlpha: nat := 1

  /** The computed descriptors, at their enum indices. */
  const ComputedDescriptors: seq<Descriptor> := [
    Descriptor(NdcDepth, Format(Float32, 1), false, true),
    Descriptor(ColorAlpha, Float32Vec4, true, true)
  ]

  datatype LookupValue = LookupValue(id: nat, isComputed: bool)

  /** One `addAovNameLookup`: `emplace` keeps an existing mapping and
      reports the duplicate. */
  function AddLookup(lookup: map<string, LookupValue>, name: string, v: LookupValue): (r: map<string, LookupValue>)
    ensures name in lookup ==> r == lookup
    ensures name !in lookup ==> r == lookup[name := v]
  {
    if name in lookup then lookup else lookup[name := v]
  }

  /** The name map built from a list of entries, in order. */
  function BuildLookup(entries: seq<(string, LookupValue)>): (r: map<string, LookupValue>)
    ensures forall name :: name in r ==> exists j :: 0 <= j < |entries| && entries[j] == (name, r[name])
    ensures |entries| > 0 ==> entries[0].0 in r && r[entries[0].0] == entries[0].1
    decreases |entries|
  {
    if |entries| == 0 then map[]
    else AddLookup(BuildLookup(entries[..|entries| - 1]), entries[|entries| - 1].0, entries[|entries| - 1].1)
  }

  /** A name is mapped exactly when some entry carries it. */
  lemma {:induction false} BuildLookupDomain(entries: seq<(string, LookupValue)>, name: string)
    ensures name in BuildLookup(entries) <==> exists j :: 0 <= j < |entries| && entries[j].0 == name
    decreases |entries|
  {
    if |entries| > 0 {
      var n := |entries| - 1;
      BuildLookupDomain(entries[..n], name);
      if exists j :: 0 <= j < n && entries[..n][j].0 == name {
        var j :| 0 <= j < n && entries[..n][j].0 == name;
        assert entries[j].0 == name;
      }
      if exists j :: 0 <= j < |entries| && entries[j].0 == name {
        var j :| 0 <= j < |entries| && entries[j].0 == name;
        if j < n {
          assert entries[..n][j].0 == name;
        }
      }
    }
  }

  /** The first entry with a given name wins: later duplicates are ignored. */
  lemma {:induction false} FirstMappingWins(entries: seq<(string, LookupValue)>, k: nat)
    requires k < |entries|
    requires forall j :: 0 <= j < k ==> entries[j].0 != entries[k].0
    ensures entries[k].0 in BuildLookup(entries) && BuildLookup(entries)[entries[k].0] == entries[k].1
    decreases |entries|
  {
    var n := |entries| - 1;
    var name := entries[k].0;
    if k < n {
      assert entries[..n][k] == entries[k];
      FirstMappingWins(entries[..n], k);
    } else {
      BuildLookupDomain(entries[..n], name);
      assert name !in BuildLookup(entries[..n]);
    }
  }

  /** The registry: the per-id table, the computed table and the names. */
  datatype Registry = Registry(descriptors: seq<Descriptor>, computed: seq<Descriptor>, lookup: map<string, LookupValue>)

  /** `GetAovDesc(id, computed)`: an id at or beyond the chosen table's size
      gives the invalid descriptor. */
  function GetAovDescById(reg: Registry, id: nat, computed: bool): (r: Descriptor)
    ensures computed && id < |reg.computed| ==> r == reg.computed[id]
    ensures !computed && id < |reg.descriptors| ==> r == reg.descriptors[id]
    ensures id >= (if computed then |reg.computed| else |reg.descriptors|) ==> r == InvalidDesc
  {
    var size := if computed then |reg.computed| else |reg.descriptors|;
    if id >= size then InvalidDesc
    else if computed then reg.computed[id] else reg.descriptors[id]
  }

  /** `GetAovDesc(name)`: an unknown name gives the invalid descriptor;
      a known one is looked up by its id and table. */
  function GetAovDesc(reg: Registry, name: string): (r: Descriptor)
    ensures name !in reg.lookup ==> r == InvalidDesc
    ensures name in reg.lookup ==> r == GetAovDescById(reg, reg.lookup[name].id, reg.lookup[name].isComputed)
  {
    if name !in reg.lookup then InvalidDesc
    else GetAovDescById(reg, reg.lookup[name].id, reg.lookup[name].isComputed)
  }

  /** The names the constructor registers, in order, each with the table it
      points into; `rpr` maps an RPR AOV enumerator (by name) to its value,
      which is not part of this model. */
  function ShippedEntries(rpr: string -> nat): seq<(string, LookupValue)> {
    HydraEntries(rpr) + RprEntries(rpr)
  }

  /** The entries for Hydra's own AOV names. */
  function HydraEntries(rpr: string -> nat): seq<(string, LookupValue)> {
    [("color", LookupValue(ColorAlpha, true)),
     ("normal", LookupValue(rpr("RPR_AOV_SHADING_NORMAL"), false)),
     ("primId", LookupValue(rpr("RPR_AOV_OBJECT_ID"), false)),
     ("Neye", LookupValue(rpr("RPR_AOV_VIEW_SHADING_NORMAL"), false)),
     ("depth", LookupValue(NdcDepth, true)),
     ("cameraDepth", LookupValue(rpr("RPR_AOV_DEPTH"), false))]
  }

  /** The entries for the renderer's own AOV names. */
  function RprEntries(rpr: string -> nat): seq<(string, LookupValue)> {
    [("rawColor", LookupValue(rpr("RPR_AOV_COLOR"), false)),
     ("albedo", LookupValue(rpr("RPR_AOV_DIFFUSE_ALBEDO"), false)),
     ("variance", LookupValue(rpr("RPR_AOV_VARIANCE"), false)),
     ("opacity", LookupValue(rpr("RPR_AOV_OPACITY"), false)),
     ("emission", LookupValue(rpr("RPR_AOV_EMISSION"), false)),
     ("directIllumination", LookupValue(rpr("RPR_AOV_DIRECT_ILLUMINATION"), false)),
     ("indirectIllumination", LookupValue(rpr("RPR_AOV_INDIRECT_ILLUMINATION"), false)),
     ("ao", LookupValue(rpr("RPR_AOV_AO"), false)),
     ("directDiffuse", LookupValue(rpr("RPR_AOV_DIRECT_DIFFUSE"), false)),
     ("directReflect", LookupValue(rpr("RPR_AOV_DIRECT_REFLECT"), false)),
     ("indirectDiffuse", LookupValue(rpr("RPR_AOV_INDIRECT_DIFFUSE"), false)),
     ("indirectReflect", LookupValue(rpr("RPR_AOV_INDIRECT_REFLECT"), false)),
     ("refract", LookupValue(rpr("RPR_AOV_REFRACT"), false)),
     ("volume", LookupValue(rpr("RPR_AOV_VOLUME"), false)),
     ("lightGroup0", LookupValue(rpr("RPR_AOV_LIGHT_GROUP0"), false)),
     ("lightGroup1", LookupValue(rpr("RPR_AOV_LIGHT_GROUP1"), false)),
     ("lightGroup2", LookupValue(rpr("RPR_AOV_LIGHT_GROUP2"), false)),
     ("lightGroup3", LookupValue(rpr("RPR_AOV_LIGHT_GROUP3"), false)),
     ("colorRight", LookupValue(rpr("RPR_AOV_COLOR_RIGHT"), false)),
     ("materialId", LookupValue(rpr("RPR_AOV_MATERIAL_ID"), false)),
     ("objectGroupId", LookupValue(rpr("RPR_AOV_OBJECT_GROUP_ID"), false)),
     ("geometricNormal", LookupValue(rpr("RPR_AOV_GEOMETRIC_NORMAL"), false)),
     ("worldCoordinate", LookupValue(rpr("RPR_AOV_WORLD_COORDINATE"), false)),
     ("primvars:st", LookupValue(rpr("RPR_AOV_UV"), false)),
     ("shadowCatcher", LookupValue(rpr("RPR_AOV_SHADOW_CATCHER"), false)),
     ("reflectionCatcher", LookupValue(rpr("RPR_AOV_REFLECTION_CATCHER"), false)),
     ("background", LookupValue(rpr("RPR_AOV_BACKGROUND"), false)),
     ("velocity", LookupValue(rpr("RPR_AOV_VELOCITY"), false)),
     ("viewShadingNormal", LookupValue(rpr("RPR_AOV_VIEW_SHADING_NORMAL"), false))]
  }

  /** The shipped entry list starts with `color` and, before any other
      `depth`, has `depth` at position 4. */
  predicate ColorAndDepthFirst(es: seq<(string, LookupValue)>) {
    |es| > 4 && es[0] == ("color", LookupValue(ColorAlpha, true)) && es[4] == ("depth", LookupValue(NdcDepth, true)) &&
    es[1].0 != "depth" && es[2].0 != "depth" && es[3].0 != "depth"
  }

  lemma ShippedColorAndDepthFirst(rpr: string -> nat)
    ensures ColorAndDepthFirst(ShippedEntries(rpr))
  {
    var es := ShippedEntries(rpr);
    var hs := HydraEntries(rpr);
    assert es[0] == hs[0] && es[1] == hs[1] && es[2] == hs[2] && es[3] == hs[3] && es[4] == hs[4];
  }

  /** `color` resolves to the computed colour-with-alpha AOV and `depth` to
      the computed NDC depth AOV. */
  lemma ColorAndDepthAreComputed(es: seq<(string, LookupValue)>, descriptors: seq<Descriptor>)
    requires ColorAndDepthFirst(es)
    ensures var reg := Registry(descriptors, ComputedDescriptors, BuildLookup(es));
      GetAovDesc(reg, "color") == ComputedDescriptors[ColorAlpha] &&
      GetAovDesc(reg, "depth") == ComputedDescriptors[NdcDepth] &&
      GetAovDesc(reg, "color").computed && GetAovDesc(reg, "depth").computed
  {
    FirstMappingWins(es, 0);
    FirstMappingWins(es, 4);
  }

  /** A name the constructor does not register gives the invalid descriptor. */
  lemma UnknownNameIsInvalid(es: seq<(string, LookupValue)>, descriptors: seq<Descriptor>, name: string)
    requires forall j :: 0 <= j < |es| ==> es[j].0 != name
    ensures GetAovDesc(Registry(descriptors, ComputedDescriptors, BuildLookup(es)), name) == InvalidDesc
  {
    BuildLookupDomain(es, name);
  }
}
