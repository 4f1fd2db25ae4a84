/** Hydra enumerations shared by the geometry modules. */
module HdTypes {

  /** `HdInterpolation`, in declaration order; `InterpolationCount` is the
      enum's count value, which the delegate also uses as "no interpolation". */
  datatype Interpolation = Constant | Uniform | Varying | Vertex | FaceVarying | Instance | InterpolationCount

  /** The six real interpolations in enum order. */
  const Interpolations: seq<Interpolation> := [Constant, Uniform, Varying, Vertex, FaceVarying, Instance]

  /** The component type of an `HdFormat`. */
  datatype Component = UNorm8 | SNorm8 | Float16 | Float32 | Int32

  /** `HdFormat`: invalid, or a component type with 1 to 4 components. */
  datatype HdFormat = FormatInvalid | Format(component: Component, count: int)

  const Float32Vec4: HdFormat := Format(Float32, 4)
  const Int32Format: HdFormat := Format(Int32, 1)

  /** Primitive ids read back from an Int32 AOV keep their low 24 bits. */
  const Int24Modulus: int := 0x100_0000
}
