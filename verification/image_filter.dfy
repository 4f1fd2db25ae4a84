/** The denoiser front end of hdRpr/ImageFilter.cpp: choosing a RIF context
    from the RPR context's creation flags, and the input/parameter tables of
    a filter wrapper. The sixteen GPU creation-flag values live in the RPR
    SDK header, so they are a parameter `gpuFlags` (GPU0 first). */
module ImageFilter {

  /** The mask of all GPU flags, folded from the back. */
  function GpuMask(gpuFlags: seq<bv32>): bv32 {
    if |gpuFlags| == 0 then 0 else GpuMask(gpuFlags[..|gpuFlags| - 1]) | gpuFlags[|gpuFlags| - 1]
  }

  /** The flags two masks have in common. */
  function Common(a: bv32, b: bv32): bv32 {
    a & b
  }

  predicate UsesGpu(contextFlags: bv32, gpuFlags: seq<bv32>, i: int)
    requires 0 <= i < |gpuFlags|
  {
    Common(contextFlags, gpuFlags[i]) != 0
  }

  /** `HasGpuContext`: the context flags intersect the GPU mask. */
  function HasGpuContext(contextFlags: bv32, gpuFlags: seq<bv32>): (ok: bool)
    ensures contextFlags == 0 || gpuFlags == [] ==> !ok
  {
    Common(contextFlags, GpuMask(gpuFlags)) != 0
  }

  lemma OrZero(x: bv32, y: bv32)
    ensures x | y != 0 <==> x != 0 || y != 0
  {
  }

  lemma AndOverOr(f: bv32, a: bv32, b: bv32)
    ensures f & (a | b) == (f & a) | (f & b)
  {
  }

  lemma OrAndDistributes(f: bv32, a: bv32, b: bv32)
    ensures Common(f, a | b) != 0 <==> Common(f, a) != 0 || Common(f, b) != 0
  {
    AndOverOr(f, a, b);
    OrZero(f & a, f & b);
  }

  predicate SomeGpu(contextFlags: bv32, gpuFlags: seq<bv32>) {
    exists i :: 0 <= i < |gpuFlags| && UsesGpu(contextFlags, gpuFlags, i)
  }

  lemma SomeGpuSplit(contextFlags: bv32, gpuFlags: seq<bv32>)
    requires |gpuFlags| > 0
    ensures SomeGpu(contextFlags, gpuFlags) <==>
      SomeGpu(contextFlags, gpuFlags[..|gpuFlags| - 1]) || UsesGpu(contextFlags, gpuFlags, |gpuFlags| - 1)
  {
    var n := |gpuFlags| - 1;
    var front := gpuFlags[..n];
    if SomeGpu(contextFlags, front) {
      var i :| 0 <= i < |front| && UsesGpu(contextFlags, front, i);
      assert front[i] == gpuFlags[i];
      assert UsesGpu(contextFlags, gpuFlags, i);
    }
    if SomeGpu(contextFlags, gpuFlags) {
      var i :| 0 <= i < |gpuFlags| && UsesGpu(contextFlags, gpuFlags, i);
      if i < n {
        assert front[i] == gpuFlags[i];
        assert UsesGpu(contextFlags, front, i);
      }
    }
  }

  /** One more GPU flag in the mask adds exactly the test of that flag. */
  lemma MaskStep(contextFlags: bv32, gpuFlags: seq<bv32>)
    requires |gpuFlags| > 0
    ensures HasGpuContext(contextFlags, gpuFlags) <==>
      HasGpuContext(contextFlags, gpuFlags[..|gpuFlags| - 1]) || UsesGpu(contextFlags, gpuFlags, |gpuFlags| - 1)
  {
    var n := |gpuFlags| - 1;
    assert GpuMask(gpuFlags) == GpuMask(gpuFlags[..n]) | gpuFlags[n];
    OrAndDistributes(contextFlags, GpuMask(gpuFlags[..n]), gpuFlags[n]);
  }

  /** Testing against the combined mask is the same as testing each GPU
      flag on its own. */
  lemma {:induction false} HasGpuContextIffSomeGpu(contextFlags: bv32, gpuFlags: seq<bv32>)
    ensures HasGpuContext(contextFlags, gpuFlags) <==> SomeGpu(contextFlags, gpuFlags)
  {
    if |gpuFlags| > 0 {
      MaskStep(contextFlags, gpuFlags);
      HasGpuContextIffSomeGpu(contextFlags, gpuFlags[..|gpuFlags| - 1]);
      SomeGpuSplit(contextFlags, gpuFlags);
    }
  }

  /** `GpuDeviceIdUsed`: the index of the lowest GPU flag present in the
      context flags, or -1 when there is none. */
  method GpuDeviceIdUsed(contextFlags: bv32, gpuFlags: seq<bv32>) returns (id: int)
    ensures -1 <= id < |gpuFlags|
    ensures id >= 0 ==> UsesGpu(contextFlags, gpuFlags, id)
    ensures forall j :: 0 <= j < |gpuFlags| && (id == -1 || j < id) ==> !UsesGpu(contextFlags, gpuFlags, j)
    ensures id == -1 <==> !HasGpuContext(contextFlags, gpuFlags)
  {
    HasGpuContextIffSomeGpu(contextFlags, gpuFlags);
    for i := 0 to |gpuFlags|
      invariant forall j :: 0 <= j < i ==> !UsesGpu(contextFlags, gpuFlags, j)
    {
      if contextFlags & gpuFlags[i] != 0 {
        assert UsesGpu(contextFlags, gpuFlags, i);
        return i;
      }
    }
    return -1;
  }

  datatype RifContextKind = MetalContext | GpuContext | CpuContext
  datatype FilterType = NoFilter | BilateralDenoise | LwrDenoise | EawDenoise

  datatype FilterState = FilterState(context: RifContextKind, width: nat, height: nat, filterType: FilterType)

  /** The constructor: Metal when the Metal flag is present, otherwise a GPU
      context when any GPU flag is, otherwise the CPU. */
  function NewImageFilter(contextFlags: bv32, metalFlag: bv32, gpuFlags: seq<bv32>, width: nat, height: nat): (f: FilterState)
    ensures f.width == width && f.height == height && f.filterType == NoFilter
    ensures f.context == MetalContext <==> contextFlags & metalFlag != 0
    ensures f.context == GpuContext <==>
      contextFlags & metalFlag == 0 && SomeGpu(contextFlags, gpuFlags)
  {
    HasGpuContextIffSomeGpu(contextFlags, gpuFlags);
    var kind :=
      if contextFlags & metalFlag != 0 then MetalContext
      else if HasGpuContext(contextFlags, gpuFlags) then GpuContext
      else CpuContext;
    FilterState(kind, width, height, NoFilter)
  }

  function CreateFilter(f: FilterState, t: FilterType): (r: FilterState)
    ensures r.filterType == t && r.(filterType := f.filterType) == f
  {
    f.(filterType := t)
  }

  /** `Resize` only records the new dimensions. */
  function Resize(f: FilterState, w: nat, h: nat): (r: FilterState)
    ensures r.width == w && r.height == h
    ensures r.context == f.context && r.filterType == f.filterType
  {
    f.(width := w, height := h)
  }

  datatype RifFilterInput = RifColor | RifNormal | RifDepth | RifWorldCoordinate | RifObjectId | RifTrans | RifAlbedo
  datatype InputTraits = InputTraits(image: nat, framebuffer: nat, sigma: real)
  datatype RifParam = RifInt(i: int) | RifFloat(f: real)

  datatype FilterWrapper = FilterWrapper(inputs: map<RifFilterInput, InputTraits>, params: map<string, RifParam>)

  /** `AddInput`: the entry for `id` is `t` whether or not one existed; all
      other entries are kept. */
  function AddInput(w: FilterWrapper, id: RifFilterInput, t: InputTraits): (r: FilterWrapper)
    ensures id in r.inputs && r.inputs[id] == t
    ensures r.inputs.Keys == w.inputs.Keys + {id}
    ensures forall k :: k in w.inputs && k != id ==> r.inputs[k] == w.inputs[k]
    ensures r.params == w.params
  {
    w.(inputs := w.inputs[id := t])
  }

  /** `AddParam`: the same overwrite rule for named parameters. */
  function AddParam(w: FilterWrapper, name: string, p: RifParam): (r: FilterWrapper)
    ensures name in r.params && r.params[name] == p
    ensures r.params.Keys == w.params.Keys + {name}
    ensures forall k :: k in w.params && k != name ==> r.params[k] == w.params[k]
    ensures r.inputs == w.inputs
  {
    w.(params := w.params[name := p])
  }

  /** The last write for a key wins, and re-adding never grows the table. */
  lemma AddOverwrites(w: FilterWrapper, id: RifFilterInput, a: InputTraits, b: InputTraits, name: string, p: RifParam, q: RifParam)
    ensures AddInput(AddInput(w, id, a), id, b) == AddInput(w, id, b)
    ensures AddParam(AddParam(w, name, p), name, q) == AddParam(w, name, q)
    ensures |AddInput(AddInput(w, id, a), id, b).inputs| == |AddInput(w, id, a).inputs|
  {
    assert AddInput(AddInput(w, id, a), id, b).inputs == AddInput(w, id, b).inputs;
    assert AddParam(AddParam(w, name, p), name, q).params == AddParam(w, name, q).params;
  }
}
