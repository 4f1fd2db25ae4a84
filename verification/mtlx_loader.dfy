/** Pieces of the MaterialX loader (deps/rprMtlxLoader/rprMtlxLoader.cpp):
    unit scales, output classification, the renderable-element picker, the
    log scope guard and the two-pass handle export. */
module MtlxLoader {
  import opened Wrappers

  /** `CompiledUnitType`: the scale of each unit of one unit type, and the
      scene's scale for units it does not know. */
  datatype CompiledUnitType = CompiledUnitType(scales: map<string, real>, sceneScale: real)

  function GetScale(u: CompiledUnitType, unit: string): (s: real)
    ensures unit in u.scales ==> s == u.scales[unit]
    ensures unit !in u.scales ==> s == u.sceneScale
  {
    if unit in u.scales then u.scales[unit] else u.sceneScale
  }

  /** The factor converting a value from `srcUnit` to `dstUnit`. */
  function ConversionScale(u: CompiledUnitType, srcUnit: string, dstUnit: string): (s: real)
    requires GetScale(u, dstUnit) != 0.0
    ensures s * GetScale(u, dstUnit) == GetScale(u, srcUnit)
  {
    GetScale(u, srcUnit) / GetScale(u, dstUnit)
  }

  /** Converting to the same unit is the identity, and conversions compose
      through an intermediate unit. */
  lemma ConversionScalesCompose(u: CompiledUnitType, a: string, b: string, c: string)
    requires GetScale(u, b) != 0.0 && GetScale(u, c) != 0.0
    ensures ConversionScale(u, c, c) == 1.0
    ensures ConversionScale(u, a, b) * ConversionScale(u, b, c) == ConversionScale(u, a, c)
  {
    var sa, sb, sc := GetScale(u, a), GetScale(u, b), GetScale(u, c);
    var x, y, w := sa / sb, sb / sc, sa / sc;
    assert sc / sc == 1.0;
    assert x * sb == sa && y * sc == sb && w * sc == sa;
    assert (x * y) * sc == x * (y * sc);
    assert (x * y) * sc == w * sc;
    assert x * y == w by {
      assert (x * y - w) * sc == 0.0;
    }
  }

  /** `RPRMtlxLoader::OutputType`. rprMtlxLoader.h is not part of this
      model; the values follow its use here: surface and displacement index
      the element table and `kOutputAny` is asked for "everything". */
  datatype OutputType = OutputNone | OutputSurface | OutputDisplacement | OutputAny

  /** The types `RprWrapNode` can wrap as a surface. */
  const WrappableTypes: set<string> := {"color3", "color2", "vector3", "vector2", "boolean", "float"}

  function ToOutputType(typeName: string): (t: OutputType)
    ensures t == OutputSurface <==> typeName == "surfaceshader" || typeName in WrappableTypes
    ensures t == OutputDisplacement <==> typeName == "displacementshader"
    ensures t != OutputAny
  {
    if typeName == "surfaceshader" || typeName in WrappableTypes then OutputSurface
    else if typeName == "displacementshader" then OutputDisplacement
    else OutputNone
  }

  predicate IsRenderableType(typeName: string) {
    ToOutputType(typeName) != OutputNone
  }

  /** The concrete types, whose bits make `kAllElementsBits`. */
  const AllElementTypes: set<OutputType> := {OutputSurface, OutputDisplacement}

  /** An output element, by the output's type name and an identity. */
  datatype MtlxOutput = MtlxOutput(typeName: string, id: nat)

  /** `MtlxRenderableElements`: the first output found for each type, and
      the types already settled (the bitset `_activeElementsBits`). */
  datatype Renderables = Renderables(active: set<OutputType>, elements: map<OutputType, nat>)

  const NoRenderables: Renderables := Renderables({}, map[])

  /** `Exists`: a concrete type exists once settled; `OutputAny` only once
      every concrete type is. */
  function Exists(r: Renderables, t: OutputType): (ok: bool)
    requires t != OutputNone
    ensures t != OutputAny ==> (ok <==> t in r.active)
    ensures t == OutputAny && r.active <= AllElementTypes ==>
      (ok <==> OutputSurface in r.active && OutputDisplacement in r.active)
  {
    if t == OutputAny then r.active == AllElementTypes
    else t in r.active
  }

  /** `_Add`: an output of a renderable type fills its slot unless the slot
      is already settled; when a particular type is requested, outputs of
      the other type are ignored. */
  function AddOutput(r: Renderables, requested: OutputType, output: MtlxOutput): (r': Renderables)
    requires requested != OutputNone
    ensures r.active <= r'.active
    ensures var actual := ToOutputType(output.typeName);
      if actual == OutputNone || (requested != OutputAny && requested != actual) || actual in r.active
      then r' == r
      else r'.active == r.active + {actual} && r'.elements == r.elements[actual := output.id]
  {
    var actual := ToOutputType(output.typeName);
    if actual == OutputNone then r
    else if requested != OutputAny && requested != actual then r
    else if actual in r.active then r
    else Renderables(r.active + {actual}, r.elements[actual := output.id])
  }

  /** `Add`: nothing once the requested type exists; otherwise the element's
      outputs are offered in order until it does. */
  function Add(r: Renderables, requested: OutputType, outputs: seq<MtlxOutput>): (r': Renderables)
    requires requested != OutputNone
    ensures Exists(r, requested) || outputs == [] ==> r' == r
    ensures r.active <= r'.active <= r.active + AllElementTypes
    ensures forall t :: t in r.active && t in r.elements ==> t in r'.elements && r'.elements[t] == r.elements[t]
    decreases |outputs|
  {
    if Exists(r, requested) || |outputs| == 0 then r
    else Add(AddOutput(r, requested, outputs[0]), requested, outputs[1..])
  }

  /** The first output of each type is kept: a settled slot never changes,
      and settled types stay settled. */
  lemma {:induction false} SettledSlotKept(r: Renderables, requested: OutputType, outputs: seq<MtlxOutput>, t: OutputType)
    requires requested != OutputNone
    requires t in r.active && t in r.elements
    ensures r.active <= Add(r, requested, outputs).active
    ensures t in Add(r, requested, outputs).elements
    ensures Add(r, requested, outputs).elements[t] == r.elements[t]
    decreases |outputs|
  {
    if !(Exists(r, requested) || |outputs| == 0) {
      var r1 := AddOutput(r, requested, outputs[0]);
      SettledSlotKept(r1, requested, outputs[1..], t);
    }
  }

  /** Outputs of the other concrete type never fill a requested type's
      search. */
  lemma {:induction false} MismatchedOutputsIgnored(r: Renderables, requested: OutputType, outputs: seq<MtlxOutput>)
    requires requested == OutputSurface || requested == OutputDisplacement
    requires forall k :: 0 <= k < |outputs| ==> ToOutputType(outputs[k].typeName) != requested
    ensures Add(r, requested, outputs) == r
    decreases |outputs|
  {
    if !(Exists(r, requested) || |outputs| == 0) {
      assert AddOutput(r, requested, outputs[0]) == r;
      MismatchedOutputsIgnored(r, requested, outputs[1..]);
    }
  }

  /** The search stops at the first output that settles the requested
      type: later outputs are never looked at. */
  lemma {:induction false} StopsAtFirstMatch(r: Renderables, t: OutputType, outputs: seq<MtlxOutput>, k: nat)
    requires t == OutputSurface || t == OutputDisplacement
    requires t !in r.active
    requires k < |outputs| && ToOutputType(outputs[k].typeName) == t
    requires forall j :: 0 <= j < k ==> ToOutputType(outputs[j].typeName) != t
    ensures t in Add(r, t, outputs).elements && Add(r, t, outputs).elements[t] == outputs[k].id
    decreases k
  {
    if k == 0 {
      var r1 := AddOutput(r, t, outputs[0]);
      assert Exists(r1, t);
      assert Add(r, t, outputs) == r1;
    } else {
      assert AddOutput(r, t, outputs[0]) == r;
      StopsAtFirstMatch(r, t, outputs[1..], k - 1);
    }
  }

  /** `Disable`: the type counts as settled, with no element. */
  function Disable(r: Renderables, t: OutputType): (r': Renderables)
    requires t == OutputSurface || t == OutputDisplacement
    ensures Exists(r', t)
    ensures t !in r'.elements
    ensures forall k :: k != t ==> (k in r'.elements <==> k in r.elements)
  {
    Renderables(r.active + {t}, r.elements - {t})
  }

  /** `Exists(kOutputAny)` holds exactly when both concrete types do. */
  lemma ExistsAnyIffBoth(r: Renderables)
    requires r.active <= AllElementTypes
    ensures Exists(r, OutputAny) <==> Exists(r, OutputSurface) && Exists(r, OutputDisplacement)
  {
  }

  /** `LogScope`: global is -1; nested shares graph's value. */
  datatype LogScope = LSGlobal | LSGraph | LSNode | LSInput

  datatype LogContext = LogContext(logDepth: int, logScope: LogScope)

  /** A `ScopeGuard` remembers what it replaced. */
  datatype ScopeGuard = ScopeGuard(previousLogDepth: int, previousLogScope: LogScope)

  const GlobalLogDepth: int := -1

  /** `EnterScope`: global resets the depth, graph/nested and node scopes
      nest one deeper, an input scope keeps the depth. */
  function EnterScope(ctx: LogContext, scope: LogScope): (r: (ScopeGuard, LogContext))
    ensures r.1.logScope == scope
    ensures scope == LSGlobal ==> r.1.logDepth == GlobalLogDepth
    ensures scope == LSGraph || scope == LSNode ==> r.1.logDepth == ctx.logDepth + 1
    ensures scope == LSInput ==> r.1.logDepth == ctx.logDepth
  {
    var depth := if scope == LSGlobal then GlobalLogDepth
                 else if scope == LSGraph || scope == LSNode then ctx.logDepth + 1
                 else ctx.logDepth;
    (ScopeGuard(ctx.logDepth, ctx.logScope), LogContext(depth, scope))
  }

  /** The guard's destructor. */
  function LeaveScope(g: ScopeGuard, ctx: LogContext): (r: LogContext)
    ensures r.logDepth == g.previousLogDepth && r.logScope == g.previousLogScope
  {
    LogContext(g.previousLogDepth, g.previousLogScope)
  }

  /** Leaving a scope restores the context from before it was entered,
      whatever happened inside; so nested scopes unwind in order. */
  lemma ScopesRestore(ctx: LogContext, outer: LogScope, inner: LogScope)
    ensures var (g, c1) := EnterScope(ctx, outer);
      LeaveScope(g, c1) == ctx
    ensures var (g1, c1) := EnterScope(ctx, outer);
      var (g2, c2) := EnterScope(c1, inner);
      LeaveScope(g1, LeaveScope(g2, c2)) == ctx && LeaveScope(g2, c2) == c1
  {
  }

  /** A converter node owns at most one RPR node. */
  datatype Converter = Converter(handle: Option<nat>)

  /** An `RprNode`: its own handle (exported only if it owns it) and its
      input converters in key order. */
  datatype RprNode = RprNode(handle: Option<nat>, owning: bool, converters: seq<Converter>)

  function ConverterHandles(cs: seq<Converter>): (hs: seq<nat>)
    ensures |hs| <= |cs|
  {
    if |cs| == 0 then []
    else
      var last := cs[|cs| - 1];
      ConverterHandles(cs[..|cs| - 1]) + (if last.handle.Some? then [last.handle.value] else [])
  }

  /** `MoveRprApiHandles(nullptr)`: the number of handles a move exports. */
  function CountHandles(n: RprNode): (k: nat)
    ensures k <= 1 + |n.converters|
  {
    (if n.handle.Some? && n.owning then 1 else 0) + |ConverterHandles(n.converters)|
  }

  /** `MoveRprApiHandles(dst)`: the handles written to `dst`, in order, and
      the node with the exported handles released. */
  function MoveHandles(n: RprNode): (r: (seq<nat>, RprNode))
    ensures |r.0| == CountHandles(n)
    ensures CountHandles(r.1) == 0
    ensures n.handle.Some? && n.owning ==> |r.0| > 0 && r.0[0] == n.handle.value
    ensures r.1.owning == n.owning && |r.1.converters| == |n.converters|
  {
    var own := if n.handle.Some? && n.owning then [n.handle.value] else [];
    var released := seq(|n.converters|, i => Converter(None));
    NoHandlesReleased(|n.converters|);
    (own + ConverterHandles(n.converters),
     RprNode(if n.owning then None else n.handle, n.owning, released))
  }

  lemma {:induction false} NoHandlesReleased(k: nat)
    ensures ConverterHandles(seq(k, i => Converter(None))) == []
  {
    if k > 0 {
      var s := seq(k, i => Converter(None));
      assert s[..k - 1] == seq(k - 1, i => Converter(None));
      NoHandlesReleased(k - 1);
    }
  }

  /** The counting pass sizes the array the moving pass fills, and a second
      move exports nothing. */
  lemma CountThenMove(n: RprNode)
    ensures |MoveHandles(n).0| == CountHandles(n)
    ensures MoveHandles(MoveHandles(n).1).0 == []
  {
  }
}
