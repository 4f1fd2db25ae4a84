/** The token-to-RPR lookups of rprUsd/materialMappings.cpp: material node
    types, material node inputs, and input modes. The RPR values are
    constants of the RPR SDK, written here by their SDK names. */
module MaterialMappings {

  /** An RPR SDK constant, identified by its name. */
  datatype RprConstant = RprConstant(name: string)

  /** The outcome of a lookup: whether the token was known, the value left
      in the caller's output, and whether an error was reported. */
  datatype Lookup<T> = Lookup(found: bool, out: T, errorReported: bool)

  /** The shared shape of the three `ToRpr` overloads: a known token writes
      its mapped value and succeeds; an unknown token fails, leaves `out` as
      it was, and reports an error only when `pedantic`. */
  function ToRpr<T>(table: map<string, T>, id: string, out: T, pedantic: bool): (r: Lookup<T>)
    ensures r.found <==> id in table
    ensures r.found ==> r.out == table[id]
    ensures !r.found ==> r.out == out
    ensures r.errorReported <==> !r.found && pedantic
  {
    if id in table then Lookup(true, table[id], false)
    else Lookup(false, out, pedantic)
  }

  /** `pedantic` decides only whether an error is reported. */
  lemma PedanticOnlyReports<T>(table: map<string, T>, id: string, out: T)
    ensures ToRpr(table, id, out, true).found == ToRpr(table, id, out, false).found
    ensures ToRpr(table, id, out, true).out == ToRpr(table, id, out, false).out
    ensures !ToRpr(table, id, out, false).errorReported
  {
  }

  const NodeTypeTable: map<string, RprConstant> := map[
      "diffuse" := RprConstant("RPR_MATERIAL_NODE_DIFFUSE"),
      "microfacet" := RprConstant("RPR_MATERIAL_NODE_MICROFACET"),
      "reflection" := RprConstant("RPR_MATERIAL_NODE_REFLECTION"),
      "refraction" := RprConstant("RPR_MATERIAL_NODE_REFRACTION"),
      "microfacet_refraction" := RprConstant("RPR_MATERIAL_NODE_MICROFACET_REFRACTION"),
      "transparent" := RprConstant("RPR_MATERIAL_NODE_TRANSPARENT"),
      "emissive" := RprConstant("RPR_MATERIAL_NODE_EMISSIVE"),
      "ward" := RprConstant("RPR_MATERIAL_NODE_WARD"),
      "add" := RprConstant("RPR_MATERIAL_NODE_ADD"),
      "blend" := RprConstant("RPR_MATERIAL_NODE_BLEND"),
      "arithmetic" := RprConstant("RPR_MATERIAL_NODE_ARITHMETIC"),
      "fresnel" := RprConstant("RPR_MATERIAL_NODE_FRESNEL"),
      "normal_map" := RprConstant("RPR_MATERIAL_NODE_NORMAL_MAP"),
      "image_texture" := RprConstant("RPR_MATERIAL_NODE_IMAGE_TEXTURE"),
      "noise2d_texture" := RprConstant("RPR_MATERIAL_NODE_NOISE2D_TEXTURE"),
      "dot_texture" := RprConstant("RPR_MATERIAL_NODE_DOT_TEXTURE"),
      "gradient_texture" := RprConstant("RPR_MATERIAL_NODE_GRADIENT_TEXTURE"),
      "checker_texture" := RprConstant("RPR_MATERIAL_NODE_CHECKER_TEXTURE"),
      "constant_texture" := RprConstant("RPR_MATERIAL_NODE_CONSTANT_TEXTURE"),
      "input_lookup" := RprConstant("RPR_MATERIAL_NODE_INPUT_LOOKUP"),
      "blend_value" := RprConstant("RPR_MATERIAL_NODE_BLEND_VALUE"),
      "passthrough" := RprConstant("RPR_MATERIAL_NODE_PASSTHROUGH"),
      "orennayar" := RprConstant("RPR_MATERIAL_NODE_ORENNAYAR"),
      "fresnel_schlick" := RprConstant("RPR_MATERIAL_NODE_FRESNEL_SCHLICK"),
      "diffuse_refraction" := RprConstant("RPR_MATERIAL_NODE_DIFFUSE_REFRACTION"),
      "bump_map" := RprConstant("RPR_MATERIAL_NODE_BUMP_MAP"),
      "volume" := RprConstant("RPR_MATERIAL_NODE_VOLUME"),
      "microfacet_anisotropic_reflection" := RprConstant("RPR_MATERIAL_NODE_MICROFACET_ANISOTROPIC_REFLECTION"),
      "microfacet_anisotropic_refraction" := RprConstant("RPR_MATERIAL_NODE_MICROFACET_ANISOTROPIC_REFRACTION"),
      "twosided" := RprConstant("RPR_MATERIAL_NODE_TWOSIDED"),
      "uv_procedural" := RprConstant("RPR_MATERIAL_NODE_UV_PROCEDURAL"),
      "microfacet_beckmann" := RprConstant("RPR_MATERIAL_NODE_MICROFACET_BECKMANN"),
      "phong" := RprConstant("RPR_MATERIAL_NODE_PHONG"),
      "buffer_sampler" := RprConstant("RPR_MATERIAL_NODE_BUFFER_SAMPLER"),
      "uv_triplanar" := RprConstant("RPR_MATERIAL_NODE_UV_TRIPLANAR"),
      "ao_map" := RprConstant("RPR_MATERIAL_NODE_AO_MAP"),
      "user_texture_0" := RprConstant("RPR_MATERIAL_NODE_USER_TEXTURE_0"),
      "user_texture_1" := RprConstant("RPR_MATERIAL_NODE_USER_TEXTURE_1"),
      "user_texture_2" := RprConstant("RPR_MATERIAL_NODE_USER_TEXTURE_2"),
      "user_texture_3" := RprConstant("RPR_MATERIAL_NODE_USER_TEXTURE_3"),
      "uberv2" := RprConstant("RPR_MATERIAL_NODE_UBERV2"),
      "transform" := RprConstant("RPR_MATERIAL_NODE_TRANSFORM"),
      "rgb_to_hsv" := RprConstant("RPR_MATERIAL_NODE_RGB_TO_HSV"),
      "hsv_to_rgb" := RprConstant("RPR_MATERIAL_NODE_HSV_TO_RGB")
    ]

  const NodeInputTable: map<string, RprConstant> := map[
      "color" := RprConstant("RPR_MATERIAL_INPUT_COLOR"),
      "color0" := RprConstant("RPR_MATERIAL_INPUT_COLOR0"),
      "color1" := RprConstant("RPR_MATERIAL_INPUT_COLOR1"),
      "normal" := RprConstant("RPR_MATERIAL_INPUT_NORMAL"),
      "uv" := RprConstant("RPR_MATERIAL_INPUT_UV"),
      "data" := RprConstant("RPR_MATERIAL_INPUT_DATA"),
      "roughness" := RprConstant("RPR_MATERIAL_INPUT_ROUGHNESS"),
      "ior" := RprConstant("RPR_MATERIAL_INPUT_IOR"),
      "roughness_x" := RprConstant("RPR_MATERIAL_INPUT_ROUGHNESS_X"),
      "roughness_y" := RprConstant("RPR_MATERIAL_INPUT_ROUGHNESS_Y"),
      "rotation" := RprConstant("RPR_MATERIAL_INPUT_ROTATION"),
      "weight" := RprConstant("RPR_MATERIAL_INPUT_WEIGHT"),
      "op" := RprConstant("RPR_MATERIAL_INPUT_OP"),
      "invec" := RprConstant("RPR_MATERIAL_INPUT_INVEC"),
      "uv_scale" := RprConstant("RPR_MATERIAL_INPUT_UV_SCALE"),
      "value" := RprConstant("RPR_MATERIAL_INPUT_VALUE"),
      "reflectance" := RprConstant("RPR_MATERIAL_INPUT_REFLECTANCE"),
      "scale" := RprConstant("RPR_MATERIAL_INPUT_SCALE"),
      "scattering" := RprConstant("RPR_MATERIAL_INPUT_SCATTERING"),
      "absorption" := RprConstant("RPR_MATERIAL_INPUT_ABSORBTION"),
      "emission" := RprConstant("RPR_MATERIAL_INPUT_EMISSION"),
      "g" := RprConstant("RPR_MATERIAL_INPUT_G"),
      "multiscatter" := RprConstant("RPR_MATERIAL_INPUT_MULTISCATTER"),
      "color2" := RprConstant("RPR_MATERIAL_INPUT_COLOR2"),
      "color3" := RprConstant("RPR_MATERIAL_INPUT_COLOR3"),
      "anisotropic" := RprConstant("RPR_MATERIAL_INPUT_ANISOTROPIC"),
      "frontface" := RprConstant("RPR_MATERIAL_INPUT_FRONTFACE"),
      "backface" := RprConstant("RPR_MATERIAL_INPUT_BACKFACE"),
      "origin" := RprConstant("RPR_MATERIAL_INPUT_ORIGIN"),
      "zaxis" := RprConstant("RPR_MATERIAL_INPUT_ZAXIS"),
      "xaxis" := RprConstant("RPR_MATERIAL_INPUT_XAXIS"),
      "threshold" := RprConstant("RPR_MATERIAL_INPUT_THRESHOLD"),
      "offset" := RprConstant("RPR_MATERIAL_INPUT_OFFSET"),
      "uv_type" := RprConstant("RPR_MATERIAL_INPUT_UV_TYPE"),
      "radius" := RprConstant("RPR_MATERIAL_INPUT_RADIUS"),
      "side" := RprConstant("RPR_MATERIAL_INPUT_SIDE"),
      "caustics" := RprConstant("RPR_MATERIAL_INPUT_CAUSTICS"),
      "transmission_color" := RprConstant("RPR_MATERIAL_INPUT_TRANSMISSION_COLOR"),
      "thickness" := RprConstant("RPR_MATERIAL_INPUT_THICKNESS"),
      "0" := RprConstant("RPR_MATERIAL_INPUT_0"),
      "1" := RprConstant("RPR_MATERIAL_INPUT_1"),
      "2" := RprConstant("RPR_MATERIAL_INPUT_2"),
      "3" := RprConstant("RPR_MATERIAL_INPUT_3"),
      "4" := RprConstant("RPR_MATERIAL_INPUT_4"),
      "schlick_approximation" := RprConstant("RPR_MATERIAL_INPUT_SCHLICK_APPROXIMATION"),
      "applysurface" := RprConstant("RPR_MATERIAL_INPUT_APPLYSURFACE"),
      "uber_diffuse_color" := RprConstant("RPR_MATERIAL_INPUT_UBER_DIFFUSE_COLOR"),
      "uber_diffuse_weight" := RprConstant("RPR_MATERIAL_INPUT_UBER_DIFFUSE_WEIGHT"),
      "uber_diffuse_roughness" := RprConstant("RPR_MATERIAL_INPUT_UBER_DIFFUSE_ROUGHNESS"),
      "uber_diffuse_normal" := RprConstant("RPR_MATERIAL_INPUT_UBER_DIFFUSE_NORMAL"),
      "uber_reflection_color" := RprConstant("RPR_MATERIAL_INPUT_UBER_REFLECTION_COLOR"),
      "uber_reflection_weight" := RprConstant("RPR_MATERIAL_INPUT_UBER_REFLECTION_WEIGHT"),
      "uber_reflection_roughness" := RprConstant("RPR_MATERIAL_INPUT_UBER_REFLECTION_ROUGHNESS"),
      "uber_reflection_anisotropy" := RprConstant("RPR_MATERIAL_INPUT_UBER_REFLECTION_ANISOTROPY"),
      "uber_reflection_anisotropy_rotation" := RprConstant("RPR_MATERIAL_INPUT_UBER_REFLECTION_ANISOTROPY_ROTATION"),
      "uber_reflection_mode" := RprConstant("RPR_MATERIAL_INPUT_UBER_REFLECTION_MODE"),
      "uber_reflection_ior" := RprConstant("RPR_MATERIAL_INPUT_UBER_REFLECTION_IOR"),
      "uber_reflection_metalness" := RprConstant("RPR_MATERIAL_INPUT_UBER_REFLECTION_METALNESS"),
      "uber_reflection_normal" := RprConstant("RPR_MATERIAL_INPUT_UBER_REFLECTION_NORMAL"),
      "uber_refraction_color" := RprConstant("RPR_MATERIAL_INPUT_UBER_REFRACTION_COLOR"),
      "uber_refraction_weight" := RprConstant("RPR_MATERIAL_INPUT_UBER_REFRACTION_WEIGHT"),
      "uber_refraction_roughness" := RprConstant("RPR_MATERIAL_INPUT_UBER_REFRACTION_ROUGHNESS"),
      "uber_refraction_ior" := RprConstant("RPR_MATERIAL_INPUT_UBER_REFRACTION_IOR"),
      "uber_refraction_normal" := RprConstant("RPR_MATERIAL_INPUT_UBER_REFRACTION_NORMAL"),
      "uber_refraction_thin_surface" := RprConstant("RPR_MATERIAL_INPUT_UBER_REFRACTION_THIN_SURFACE"),
      "uber_refraction_absorption_color" := RprConstant("RPR_MATERIAL_INPUT_UBER_REFRACTION_ABSORPTION_COLOR"),
      "uber_refraction_absorption_distance" := RprConstant("RPR_MATERIAL_INPUT_UBER_REFRACTION_ABSORPTION_DISTANCE"),
      "uber_refraction_caustics" := RprConstant("RPR_MATERIAL_INPUT_UBER_REFRACTION_CAUSTICS"),
      "uber_coating_color" := RprConstant("RPR_MATERIAL_INPUT_UBER_COATING_COLOR"),
      "uber_coating_weight" := RprConstant("RPR_MATERIAL_INPUT_UBER_COATING_WEIGHT"),
      "uber_coating_roughness" := RprConstant("RPR_MATERIAL_INPUT_UBER_COATING_ROUGHNESS"),
      "uber_coating_mode" := RprConstant("RPR_MATERIAL_INPUT_UBER_COATING_MODE"),
      "uber_coating_ior" := RprConstant("RPR_MATERIAL_INPUT_UBER_COATING_IOR"),
      "uber_coating_metalness" := RprConstant("RPR_MATERIAL_INPUT_UBER_COATING_METALNESS"),
      "uber_coating_normal" := RprConstant("RPR_MATERIAL_INPUT_UBER_COATING_NORMAL"),
      "uber_coating_transmission_color" := RprConstant("RPR_MATERIAL_INPUT_UBER_COATING_TRANSMISSION_COLOR"),
      "uber_coating_thickness" := RprConstant("RPR_MATERIAL_INPUT_UBER_COATING_THICKNESS"),
      "uber_sheen" := RprConstant("RPR_MATERIAL_INPUT_UBER_SHEEN"),
      "uber_sheen_tint" := RprConstant("RPR_MATERIAL_INPUT_UBER_SHEEN_TINT"),
      "uber_sheen_weight" := RprConstant("RPR_MATERIAL_INPUT_UBER_SHEEN_WEIGHT"),
      "uber_emission_color" := RprConstant("RPR_MATERIAL_INPUT_UBER_EMISSION_COLOR"),
      "uber_emission_weight" := RprConstant("RPR_MATERIAL_INPUT_UBER_EMISSION_WEIGHT"),
      "uber_emission_mode" := RprConstant("RPR_MATERIAL_INPUT_UBER_EMISSION_MODE"),
      "uber_transparency" := RprConstant("RPR_MATERIAL_INPUT_UBER_TRANSPARENCY"),
      "uber_sss_scatter_color" := RprConstant("RPR_MATERIAL_INPUT_UBER_SSS_SCATTER_COLOR"),
      "uber_sss_scatter_distance" := RprConstant("RPR_MATERIAL_INPUT_UBER_SSS_SCATTER_DISTANCE"),
      "uber_sss_scatter_direction" := RprConstant("RPR_MATERIAL_INPUT_UBER_SSS_SCATTER_DIRECTION"),
      "uber_sss_weight" := RprConstant("RPR_MATERIAL_INPUT_UBER_SSS_WEIGHT"),
      "uber_sss_multiscatter" := RprConstant("RPR_MATERIAL_INPUT_UBER_SSS_MULTISCATTER"),
      "uber_backscatter_weight" := RprConstant("RPR_MATERIAL_INPUT_UBER_BACKSCATTER_WEIGHT"),
      "uber_backscatter_color" := RprConstant("RPR_MATERIAL_INPUT_UBER_BACKSCATTER_COLOR"),
      "uber_fresnel_schlick_approximation" := RprConstant("RPR_MATERIAL_INPUT_UBER_FRESNEL_SCHLICK_APPROXIMATION")
    ]

  const InputModeTable: map<string, RprConstant> := map[
      "PBR" := RprConstant("RPR_UBER_MATERIAL_IOR_MODE_PBR"),
      "Metalness" := RprConstant("RPR_UBER_MATERIAL_IOR_MODE_METALNESS"),
      "Singlesided" := RprConstant("RPR_UBER_MATERIAL_EMISSION_MODE_SINGLESIDED"),
      "Doublesided" := RprConstant("RPR_UBER_MATERIAL_EMISSION_MODE_DOUBLESIDED"),
      "UV" := RprConstant("RPR_MATERIAL_NODE_LOOKUP_UV"),
      "Normal" := RprConstant("RPR_MATERIAL_NODE_LOOKUP_N"),
      "Position" := RprConstant("RPR_MATERIAL_NODE_LOOKUP_P"),
      "Incoming ray direction" := RprConstant("RPR_MATERIAL_NODE_LOOKUP_INVEC"),
      "Outgoing ray direction" := RprConstant("RPR_MATERIAL_NODE_LOOKUP_OUTVEC"),
      "Local Position" := RprConstant("RPR_MATERIAL_NODE_LOOKUP_P_LOCAL"),
      "Shape Random Color" := RprConstant("RPR_MATERIAL_NODE_LOOKUP_SHAPE_RANDOM_COLOR"),
      "Object Id" := RprConstant("RPR_MATERIAL_NODE_LOOKUP_OBJECT_ID"),
      "Flat Plane" := RprConstant("RPR_MATERIAL_NODE_UVTYPE_PLANAR"),
      "Cylinder (in xy direction)" := RprConstant("RPR_MATERIAL_NODE_UVTYPE_CYLINDICAL"),
      "Spherical" := RprConstant("RPR_MATERIAL_NODE_UVTYPE_SPHERICAL"),
      "Projected from a camera position" := RprConstant("RPR_MATERIAL_NODE_UVTYPE_PROJECT")
    ]

  /** `ToRpr` for `rpr::MaterialNodeType`. */
  function NodeTypeToRpr(id: string, out: RprConstant, pedantic: bool): (r: Lookup<RprConstant>)
    ensures r.found <==> id in NodeTypeTable
    ensures r.found ==> r.out == NodeTypeTable[id]
    ensures !r.found ==> r.out == out && (r.errorReported <==> pedantic)
  {
    ToRpr(NodeTypeTable, id, out, pedantic)
  }

  /** `ToRpr` for `rpr::MaterialNodeInput`. */
  function NodeInputToRpr(id: string, out: RprConstant, pedantic: bool): (r: Lookup<RprConstant>)
    ensures r.found <==> id in NodeInputTable
    ensures r.found ==> r.out == NodeInputTable[id]
    ensures !r.found ==> r.out == out && (r.errorReported <==> pedantic)
  {
    ToRpr(NodeInputTable, id, out, pedantic)
  }

  /** `ToRpr` for the mode tokens, which are display strings. */
  function InputModeToRpr(id: string, out: RprConstant, pedantic: bool): (r: Lookup<RprConstant>)
    ensures r.found <==> id in InputModeTable
    ensures r.found ==> r.out == InputModeTable[id]
    ensures !r.found ==> r.out == out && (r.errorReported <==> pedantic)
  {
    ToRpr(InputModeTable, id, out, pedantic)
  }

  /** Mode tokens are matched exactly: the display string is known, a
      differently cased spelling is not. */
  lemma ModeTokensAreCaseSensitive(out: RprConstant)
    ensures InputModeToRpr("PBR", out, false) == Lookup(true, RprConstant("RPR_UBER_MATERIAL_IOR_MODE_PBR"), false)
    ensures InputModeToRpr("pbr", out, true) == Lookup(false, out, true)
  {
  }
}
