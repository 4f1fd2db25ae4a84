/** Arithmetic material nodes (rprUsd/materialNodes/rpr/arithmeticNode.cpp):
    the per-operation registry, input binding and the cached output. */
module ArithmeticNode {
  import opened Wrappers
  import MaterialRegistry

  /** At most four colour arguments `color0`..`color3`. */
  const MaxArity: nat := 4
  /** Every operation name starts with this prefix followed by `_`. */
  const OpPrefix: string := "RPR_MATERIAL_NODE_OP_"

  /** An argument as a `VtValue`: unset, a plain value, or a handle to an
      RPR material node (which forces evaluation in the engine). */
  datatype Arg = EmptyArg | Trivial(value: real) | MaterialNodeArg(handle: nat)

  /** The cached output: none yet, a value computed while building the
      graph, or an RPR arithmetic node doing the work at render time. */
  datatype Output = NoOutput | Evaluated(value: Arg) | EngineNode(op: nat)

  datatype Node = Node(op: nat, arity: nat, args: seq<Arg>, output: Output)

  predicate Valid(n: Node) {
    |n.args| == MaxArity && n.arity <= MaxArity
  }

  function AsciiLower(c: char): (r: char)
    ensures 'A' <= c <= 'Z' ==> 'a' <= r <= 'z'
    ensures !('A' <= c <= 'Z') ==> r == c
  {
    if 'A' <= c <= 'Z' then (c as int + 32) as char else c
  }

  function Lower(s: string): (r: string)
    ensures |r| == |s|
    ensures forall i :: 0 <= i < |s| ==> r[i] == AsciiLower(s[i])
  {
    if |s| == 0 then [] else [AsciiLower(s[0])] + Lower(s[1..])
  }

  /** The node name registered for an operation: `RPR_MATERIAL_NODE_OP_ADD`
      becomes `rpr_arithmetic_add`. */
  function NodeName(opName: string): (r: string)
    requires |opName| >= |OpPrefix| && opName[..|OpPrefix|] == OpPrefix
    ensures |r| == 15 + |opName| - |OpPrefix|
    ensures r[..15] == "rpr_arithmetic_"
    ensures forall i :: |OpPrefix| <= i < |opName| ==> r[15 + i - |OpPrefix|] == AsciiLower(opName[i])
  {
    "rpr_arithmetic_" + Lower(opName[|OpPrefix|..])
  }

  /** The decimal digit for `d` < 10. */
  function Digit(d: nat): (c: char)
    requires d < 10
    ensures '0' <= c <= '9' && c as int - '0' as int == d
  {
    ('0' as int + d) as char
  }

  /** The input names the node info declares: `color0`.. for each argument. */
  function InputNames(arity: nat): (r: seq<string>)
    requires arity <= MaxArity
    ensures |r| == arity
    ensures forall i :: 0 <= i < arity ==> r[i] == "color" + [Digit(i)]
  {
    if arity == 0 then [] else InputNames(arity - 1) + ["color" + [Digit(arity - 1)]]
  }

  /** `SetInput(token)`: the argument slot a token names. */
  function ArgIndex(token: string): (r: Option<nat>)
    ensures r.Some? ==> r.value < MaxArity && token == "color" + [Digit(r.value)]
  {
    if token == "color0" then Some(0)
    else if token == "color1" then Some(1)
    else if token == "color2" then Some(2)
    else if token == "color3" then Some(3)
    else None
  }

  /** Every input the node info declares is accepted by `SetInput`, and at
      the slot its number names. */
  lemma DeclaredInputsBind(arity: nat, i: nat)
    requires arity <= MaxArity && i < arity
    ensures ArgIndex(InputNames(arity)[i]) == Some(i)
  {
    var name := InputNames(arity)[i];
    assert name == "color" + [Digit(i)];
    if i == 0 { assert name == "color0"; }
    else if i == 1 { assert name == "color1"; }
    else if i == 2 { assert name == "color2"; }
    else { assert name == "color3"; }
  }

  /** No token other than the four colour names binds. */
  lemma OnlyColorTokensBind(token: string)
    ensures ArgIndex(token).Some? <==> token in {"color0", "color1", "color2", "color3"}
  {
  }

  /** `SetInput(index)`: an index outside [0, 3] is refused; otherwise the
      argument is stored and the cached output dropped. */
  function SetInputAt(n: Node, index: int, value: Arg): (r: (bool, Node))
    requires Valid(n)
    ensures Valid(r.1)
    ensures r.0 <==> 0 <= index < MaxArity
    ensures !r.0 ==> r.1 == n
    ensures r.0 ==> r.1.output == NoOutput && r.1.args[index] == value
    ensures r.0 ==> forall k :: 0 <= k < MaxArity && k != index ==> r.1.args[k] == n.args[k]
    ensures r.1.op == n.op && r.1.arity == n.arity
  {
    if index < 0 || index > 3 then (false, n)
    else (true, n.(output := NoOutput, args := n.args[index := value]))
  }

  function SetInput(n: Node, token: string, value: Arg): (r: (bool, Node))
    requires Valid(n)
    ensures Valid(r.1)
    ensures r.0 <==> ArgIndex(token).Some?
    ensures r.0 ==> r.1 == SetInputAt(n, ArgIndex(token).value, value).1
    ensures !r.0 ==> r.1 == n
  {
    match ArgIndex(token)
    case Some(i) => SetInputAt(n, i, value)
    case None => (false, n)
  }

  /** Whether every argument the operation reads is a plain value. */
  predicate InputsTrivial(n: Node)
    requires Valid(n)
  {
    forall i :: 0 <= i < n.arity ==> !n.args[i].MaterialNodeArg?
  }

  /** The outcomes of the RPR calls that build the engine node: whether the
      node is created, whether its operation is set, and, per argument slot,
      whether setting that slot succeeds (a zero colour for an unset
      argument, `SetRprInput` otherwise). */
  datatype EngineCalls = EngineCalls(created: bool, opSet: bool, inputSet: seq<bool>)

  predicate WellFormedCalls(c: EngineCalls) {
    |c.inputSet| == MaxArity
  }

  /** Every argument the operation reads is set successfully. */
  predicate AllInputsSet(n: Node, c: EngineCalls)
    requires Valid(n) && WellFormedCalls(c)
  {
    forall i :: 0 <= i < n.arity ==> c.inputSet[i]
  }

  /** The argument loop as written passes a slot when its call's outcome
      matches what the test reads as success: an unset argument's call must
      succeed, but `SetRprInput` returns `true` on success and is compared
      with `RPR_SUCCESS` (zero), so a set argument passes only when setting
      it fails. */
  predicate InputsPassAsWritten(n: Node, c: EngineCalls)
    requires Valid(n) && WellFormedCalls(c)
  {
    forall i :: 0 <= i < n.arity ==> c.inputSet[i] == (n.args[i] == EmptyArg)
  }

  /** `GetOutput` with the `SetRprInput` test as evidently intended: a
      cached output is returned as is; otherwise plain inputs are evaluated
      now (`eval` stands for the operation), and any node input makes an
      engine node, which exists only if every RPR call building it
      succeeds; a failed call leaves the output empty. */
  method GetOutput(n: Node, eval: seq<Arg> -> Arg, c: EngineCalls) returns (out: Output, n': Node)
    requires Valid(n) && WellFormedCalls(c)
    ensures Valid(n') && n'.args == n.args && n'.op == n.op && n'.arity == n.arity
    ensures n'.output == out
    ensures n.output != NoOutput ==> out == n.output
    ensures n.output == NoOutput && InputsTrivial(n) ==> out == Evaluated(eval(n.args))
    ensures n.output == NoOutput && !InputsTrivial(n) ==>
      out == (if c.created && c.opSet && AllInputsSet(n, c) then EngineNode(n.op) else NoOutput)
  {
    if n.output != NoOutput {
      return n.output, n;
    }
    var trivial := true;
    var i := 0;
    while i < n.arity
      invariant 0 <= i <= n.arity
      invariant trivial <==> forall k :: 0 <= k < i ==> !n.args[k].MaterialNodeArg?
    {
      if n.args[i].MaterialNodeArg? {
        trivial := false;
      }
      i := i + 1;
    }
    if trivial {
      out := Evaluated(eval(n.args));
    } else if !c.created || !c.opSet {
      out := NoOutput;
    } else {
      var allSet := true;
      i := 0;
      while i < n.arity
        invariant 0 <= i <= n.arity
        invariant allSet <==> forall k :: 0 <= k < i ==> c.inputSet[k]
      {
        if !c.inputSet[i] {
          allSet := false;
        }
        i := i + 1;
      }
      out := if allSet then EngineNode(n.op) else NoOutput;
    }
    n' := n.(output := out);
  }

  /** `GetOutput` as written: the argument loop returns the empty output as
      soon as a slot fails the test of `InputsPassAsWritten`, so the engine
      node is kept only when every set argument's `SetRprInput` fails. */
  method GetOutputAsWritten(n: Node, eval: seq<Arg> -> Arg, c: EngineCalls) returns (out: Output, n': Node)
    requires Valid(n) && WellFormedCalls(c)
    ensures Valid(n') && n'.args == n.args && n'.op == n.op && n'.arity == n.arity
    ensures n'.output == out
    ensures n.output != NoOutput ==> out == n.output
    ensures n.output == NoOutput && InputsTrivial(n) ==> out == Evaluated(eval(n.args))
    ensures n.output == NoOutput && !InputsTrivial(n) ==>
      out == (if c.created && c.opSet && InputsPassAsWritten(n, c) then EngineNode(n.op) else NoOutput)
  {
    if n.output != NoOutput {
      return n.output, n;
    }
    var trivial := true;
    var i := 0;
    while i < n.arity
      invariant 0 <= i <= n.arity
      invariant trivial <==> forall k :: 0 <= k < i ==> !n.args[k].MaterialNodeArg?
    {
      if n.args[i].MaterialNodeArg? {
        trivial := false;
      }
      i := i + 1;
    }
    if trivial {
      out := Evaluated(eval(n.args));
      n' := n.(output := out);
      return;
    }
    if !c.created || !c.opSet {
      return NoOutput, n;
    }
    i := 0;
    while i < n.arity
      invariant 0 <= i <= n.arity
      invariant forall k :: 0 <= k < i ==> c.inputSet[k] == (n.args[k] == EmptyArg)
    {
      if n.args[i] == EmptyArg {
        if !c.inputSet[i] {
          return NoOutput, n;
        }
      } else if c.inputSet[i] {
        return NoOutput, n;
      }
      i := i + 1;
    }
    out := EngineNode(n.op);
    n' := n.(output := out);
  }

  /** The inverted test loses the engine node: when every RPR call succeeds
      on a node with a material-node argument, the corrected test keeps the
      node and the written one does not, because that argument's successful
      `SetRprInput` is read as a failure. */
  lemma SuccessfulSetsLoseOutputAsWritten(n: Node, c: EngineCalls)
    requires Valid(n) && WellFormedCalls(c) && !InputsTrivial(n)
    requires forall i :: 0 <= i < MaxArity ==> c.inputSet[i]
    ensures AllInputsSet(n, c) && !InputsPassAsWritten(n, c)
  {
    var k :| 0 <= k < n.arity && n.args[k].MaterialNodeArg?;
    assert c.inputSet[k] != (n.args[k] == EmptyArg);
  }

  /** The written test keeps the engine node only if every set argument
      fails, so on a node whose arguments are all set the two tests never
      agree on keeping it. */
  lemma AsWrittenKeepsOnlyOnFailures(n: Node, c: EngineCalls)
    requires Valid(n) && WellFormedCalls(c) && InputsPassAsWritten(n, c)
    ensures forall i :: 0 <= i < n.arity && n.args[i] != EmptyArg ==> !c.inputSet[i]
    ensures (exists i :: 0 <= i < n.arity && n.args[i] != EmptyArg) ==> !AllInputsSet(n, c)
  {
  }

  /** A node with every argument unset and nothing cached. */
  function Fresh(op: nat, arity: nat): (n: Node)
    requires arity <= MaxArity
    ensures Valid(n) && n.output == NoOutput && n.op == op && n.arity == arity
    ensures forall k :: 0 <= k < MaxArity ==> n.args[k] == EmptyArg
  {
    Node(op, arity, [EmptyArg, EmptyArg, EmptyArg, EmptyArg], NoOutput)
  }

  /** The node constructor binds every parameter in key order; unknown
      parameter names are reported and skipped. */
  function BindParameters(n: Node, parameters: seq<(string, Arg)>): (r: Node)
    requires Valid(n)
    ensures Valid(r) && r.op == n.op && r.arity == n.arity
    ensures n.output == NoOutput ==> r.output == NoOutput
    ensures (forall k :: 0 <= k < |parameters| ==> ArgIndex(parameters[k].0).None?) ==> r == n
    decreases |parameters|
  {
    if |parameters| == 0 then n
    else BindParameters(SetInput(n, parameters[0].0, parameters[0].1).1, parameters[1..])
  }

  /** A parameter is bound unless a later one names the same slot. */
  lemma {:induction false} LastBindingWins(n: Node, parameters: seq<(string, Arg)>, k: nat)
    requires Valid(n)
    requires k < |parameters| && ArgIndex(parameters[k].0).Some?
    requires forall j :: k < j < |parameters| ==> ArgIndex(parameters[j].0) != ArgIndex(parameters[k].0)
    ensures BindParameters(n, parameters).args[ArgIndex(parameters[k].0).value] == parameters[k].1
    decreases |parameters|
  {
    var n1 := SetInput(n, parameters[0].0, parameters[0].1).1;
    if k == 0 {
      Untouched(n1, parameters[1..], ArgIndex(parameters[0].0).value);
    } else {
      LastBindingWins(n1, parameters[1..], k - 1);
    }
  }

  /** Parameters that name other slots leave a slot as it was. */
  lemma {:induction false} Untouched(n: Node, parameters: seq<(string, Arg)>, slot: nat)
    requires Valid(n) && slot < MaxArity
    requires forall j :: 0 <= j < |parameters| ==> ArgIndex(parameters[j].0) != Some(slot)
    ensures BindParameters(n, parameters).args[slot] == n.args[slot]
    decreases |parameters|
  {
    if |parameters| > 0 {
      var n1 := SetInput(n, parameters[0].0, parameters[0].1).1;
      assert n1.args[slot] == n.args[slot];
      Untouched(n1, parameters[1..], slot);
    }
  }

  /** The registered description of one operation. */
  datatype Desc = Desc(op: nat, name: string, arity: nat)

  /** `RprUsd_RprArithmeticNodeRegistry`: an operation maps to its position
      in the description list. */
  datatype Registry = Registry(lookup: map<nat, nat>, descs: seq<Desc>)

  /** Every operation points at its own description, and every arity fits
      the four argument slots. */
  predicate Indexed(r: Registry) {
    (forall op :: op in r.lookup ==> r.lookup[op] < |r.descs| && r.descs[r.lookup[op]].op == op) &&
    (forall d <- r.descs :: d.arity <= MaxArity)
  }

  /** `Register`: a second registration of an operation is refused. The
      arity is the node class's `kArity`, which every class defined with
      `DEFINE_ARITHMETIC_NODE` keeps within the four argument slots. */
  function Register(r: Registry, op: nat, opName: string, arity: nat): (res: (bool, Registry))
    requires |opName| >= |OpPrefix| && opName[..|OpPrefix|] == OpPrefix
    requires arity <= MaxArity
    ensures res.0 <==> op !in r.lookup
    ensures !res.0 ==> res.1 == r
    ensures res.0 ==> res.1.lookup == r.lookup[op := |r.descs|] &&
                      res.1.descs == r.descs + [Desc(op, NodeName(opName), arity)]
    ensures Indexed(r) ==> Indexed(res.1)
  {
    if op in r.lookup then (false, r)
    else (true, Registry(r.lookup[op := |r.descs|], r.descs + [Desc(op, NodeName(opName), arity)]))
  }

  /** Every registered operation's node name is known to the general
      material registry. */
  predicate Published(r: Registry, general: MaterialRegistry.Registry) {
    forall d <- r.descs :: d.name in general.lookup
  }

  /** `Register<T>` as a whole: the operation's own registration, then, for
      a new operation, the registration of its node name, factory and info
      in the general material registry (`factory` and `info` identify the
      node class `T`). A refused operation touches neither registry. */
  function RegisterNode(r: Registry, general: MaterialRegistry.Registry, op: nat, opName: string, arity: nat,
                        factory: nat, info: nat): (res: (bool, Registry, MaterialRegistry.Registry))
    requires |opName| >= |OpPrefix| && opName[..|OpPrefix|] == OpPrefix
    requires arity <= MaxArity
    ensures res.0 <==> op !in r.lookup
    ensures (res.0, res.1) == Register(r, op, opName, arity)
    ensures !res.0 ==> res.2 == general
    ensures res.0 ==> NodeName(opName) in res.2.lookup && general.lookup.Keys <= res.2.lookup.Keys
    ensures res.0 && NodeName(opName) !in general.lookup ==>
      res.2.lookup[NodeName(opName)] == |general.nodes| && |res.2.nodes| == |general.nodes| + 1 &&
      res.2.nodes[|general.nodes|] == MaterialRegistry.NodeDesc(factory, Some(info))
    ensures Published(r, general) ==> Published(res.1, res.2)
  {
    var (ok, r') := Register(r, op, opName, arity);
    if !ok then (false, r, general)
    else
      var (g', _) := MaterialRegistry.Register(general, NodeName(opName), MaterialRegistry.NodeDesc(factory, Some(info)));
      assert forall d <- r'.descs :: d in r.descs || d == Desc(op, NodeName(opName), arity);
      (true, r', g')
  }

  /** `Create`: an unknown operation gives null; a known one a fresh node
      with the parameters bound. */
  function Create(r: Registry, op: nat, parameters: seq<(string, Arg)>): (n: Option<Node>)
    requires Indexed(r)
    ensures n.Some? <==> op in r.lookup
    ensures n.Some? ==> Valid(n.value) && n.value.op == op && n.value.output == NoOutput
    ensures n.Some? ==> n.value.arity == r.descs[r.lookup[op]].arity
  {
    if op !in r.lookup then None
    else
      var d := r.descs[r.lookup[op]];
      assert d in r.descs;
      Some(BindParameters(Fresh(op, d.arity), parameters))
  }

  /** Binding after an evaluation drops the cached output, so the next
      `GetOutput` evaluates again. */
  lemma SetInputInvalidatesCache(n: Node, token: string, value: Arg)
    requires Valid(n) && ArgIndex(token).Some?
    ensures SetInput(n, token, value).1.output == NoOutput
  {
  }
}
