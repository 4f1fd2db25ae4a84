/** `HdRprRenderBuffer` (hdRpr/renderBuffer.cpp): the Hydra render buffer
    bound to one AOV by its prim name, with a mapper counter and a cached
    copy of the AOV data. */
module RenderBuffer {
  import opened HdTypes
  import opened Wrappers

  datatype Buffer = Buffer(aovName: string, format: HdFormat, width: nat, height: nat, numMappers: nat)

  /** The buffer prim names bound to an AOV. */
  const BufferPrimNames: set<string> :=
    {"aov_color", "aov_normal", "aov_depth", "aov_linear_depth", "aov_primId", "aov_primvars_st"}

  /** The AOV name and format chosen from the buffer prim's name; an
      unrecognised name leaves the AOV name empty and the format invalid. */
  function AovForPrimName(name: string): (r: (string, HdFormat))
    ensures r.0 == "" <==> name !in BufferPrimNames
    ensures r.1 == FormatInvalid <==> name !in BufferPrimNames
    ensures name == "aov_primId" ==> r == ("primId", Format(UNorm8, 4))
  {
    if name == "aov_color" then ("color", Format(UNorm8, 4))
    else if name == "aov_normal" then ("normal", Format(Float32, 3))
    else if name == "aov_depth" then ("depth", Format(Float32, 1))
    else if name == "aov_linear_depth" then ("linearDepth", Format(Float32, 1))
    else if name == "aov_primId" then ("primId", Format(UNorm8, 4))
    else if name == "aov_primvars_st" then ("primvars:st", Format(Float32, 3))
    else ("", FormatInvalid)
  }

  /** The constructor: no mapper yet, no dimensions. */
  function New(primName: string): (b: Buffer)
    ensures b.numMappers == 0 && b.width == 0 && b.height == 0
    ensures (b.aovName, b.format) == AovForPrimName(primName)
  {
    var (n, f) := AovForPrimName(primName);
    Buffer(n, f, 0, 0, 0)
  }

  /** `Allocate`: refused for a buffer with no AOV; otherwise the dimensions
      are stored when enabling the AOV (`enabled`) succeeds. */
  function Allocate(b: Buffer, width: nat, height: nat, enabled: bool): (r: (bool, Buffer))
    ensures r.0 <==> b.aovName != "" && enabled
    ensures r.0 ==> r.1 == b.(width := width, height := height)
    ensures !r.0 ==> r.1 == b
  {
    if b.aovName == "" then (false, b)
    else if enabled then (true, b.(width := width, height := height))
    else (false, b)
  }

  /** A buffer whose prim name names no AOV can never be allocated. */
  lemma UnknownPrimNeverAllocates(primName: string, width: nat, height: nat, enabled: bool)
    requires primName !in BufferPrimNames
    ensures !Allocate(New(primName), width, height, enabled).0
  {
    assert New(primName).aovName == "";
  }

  /** `_Deallocate`: the format becomes invalid and the dimensions zero. */
  function Deallocate(b: Buffer): (r: Buffer)
    ensures r.format == FormatInvalid && r.width == 0 && r.height == 0
    ensures r.aovName == b.aovName && r.numMappers == b.numMappers
  {
    b.(format := FormatInvalid, width := 0, height := 0)
  }

  /** `GetFormat`: a primId buffer always reports Int32, whatever format it
      stores. */
  function GetFormat(b: Buffer): (f: HdFormat)
    ensures b.aovName == "primId" ==> f == Int32Format
    ensures b.aovName != "primId" ==> f == b.format
  {
    if b.aovName == "primId" then Int32Format else b.format
  }

  function Map(b: Buffer): (r: Buffer)
    ensures r.numMappers == b.numMappers + 1 && r.(numMappers := b.numMappers) == b
  {
    b.(numMappers := b.numMappers + 1)
  }

  /** `Unmap` decrements only a positive count, so it never goes below zero. */
  function Unmap(b: Buffer): (r: Buffer)
    ensures b.numMappers > 0 ==> r.numMappers == b.numMappers - 1
    ensures b.numMappers == 0 ==> r == b
    ensures r.(numMappers := b.numMappers) == b
  {
    if b.numMappers > 0 then b.(numMappers := b.numMappers - 1) else b
  }

  predicate IsMapped(b: Buffer) {
    b.numMappers != 0
  }

  /** Map and Unmap balance: mapping `n` times and unmapping `n` times
      leaves the buffer unmapped again, and extra unmaps are harmless. */
  lemma {:induction false} MapUnmapBalance(b: Buffer, n: nat, extra: nat)
    requires !IsMapped(b)
    ensures !IsMapped(UnmapTimes(MapTimes(b, n), n + extra))
    ensures n > 0 ==> IsMapped(MapTimes(b, n))
  {
    MapTimesCount(b, n);
    UnmapTimesCount(MapTimes(b, n), n + extra);
  }

  function MapTimes(b: Buffer, n: nat): Buffer {
    if n == 0 then b else Map(MapTimes(b, n - 1))
  }

  function UnmapTimes(b: Buffer, n: nat): Buffer {
    if n == 0 then b else Unmap(UnmapTimes(b, n - 1))
  }

  lemma {:induction false} MapTimesCount(b: Buffer, n: nat)
    ensures MapTimes(b, n).numMappers == b.numMappers + n
  {
    if n > 0 {
      MapTimesCount(b, n - 1);
    }
  }

  lemma {:induction false} UnmapTimesCount(b: Buffer, n: nat)
    ensures UnmapTimes(b, n).numMappers == if b.numMappers >= n then b.numMappers - n else 0
  {
    if n > 0 {
      UnmapTimesCount(b, n - 1);
    }
  }

  /** The primId fix-up in `Resolve`: row by row, every int of the
      `width * height` pixels keeps its low 24 bits; the rest of the cache is
      untouched. */
  method MaskPrimIds(data: seq<int>, width: nat, height: nat) returns (r: seq<int>)
    requires width * height <= |data|
    ensures |r| == |data|
    ensures forall i :: 0 <= i < width * height ==> r[i] == data[i] % Int24Modulus
    ensures forall i :: width * height <= i < |data| ==> r[i] == data[i]
  {
    r := data;
    for y := 0 to height
      invariant |r| == |data|
      invariant forall i :: 0 <= i < y * width ==> r[i] == data[i] % Int24Modulus
      invariant forall i :: y * width <= i < |data| ==> r[i] == data[i]
    {
      var yOffset := y * width;
      assert (y + 1) * width == yOffset + width;
      assert yOffset + width <= width * height by {
        assert y + 1 <= height;
        MulMonotone(y + 1, height, width);
      }
      for x := 0 to width
        invariant |r| == |data|
        invariant forall i :: 0 <= i < yOffset + x ==> r[i] == data[i] % Int24Modulus
        invariant forall i :: yOffset + x <= i < |data| ==> r[i] == data[i]
      {
        r := r[x + yOffset := r[x + yOffset] % Int24Modulus];
      }
    }
  }

  lemma MulMonotone(a: nat, b: nat, c: nat)
    requires a <= b
    ensures a * c <= b * c
  {
  }
}
