/** The material network of rprUsd/materialRegistry.cpp: converting Hydra's
    legacy network map into `RprUsd_MaterialNetwork`, and the traversal in
    `CreateMaterial` that feeds each material node's inputs from the nodes
    upstream of it. */
module MaterialNetwork {
  import TokenMap
  import opened Wrappers

  type Path = string

  datatype Connection = Connection(upstreamNode: Path, upstreamOutputName: string)

  /** A converted node; its input connections form a token-ordered map. */
  datatype Node = Node(nodeTypeId: string, parameters: map<string, string>, inputConnections: seq<TokenMap.Entry<Connection>>)

  datatype Network = Network(nodes: map<Path, Node>, terminals: map<string, Connection>)

  datatype HdNode = HdNode(path: Path, identifier: string, parameters: map<string, string>)
  datatype HdRelationship = HdRelationship(inputId: Path, inputName: string, outputId: Path, outputName: string)
  datatype HdNetwork = HdNetwork(nodes: seq<HdNode>, relationships: seq<HdRelationship>)
  /** The per-terminal networks in map order, and the terminal node paths. */
  datatype HdNetworkMap = HdNetworkMap(entries: seq<(string, HdNetwork)>, terminals: seq<Path>)

  /** Every node's input connections are in token order. */
  predicate WellFormed(net: Network) {
    forall p :: p in net.nodes ==> TokenMap.Sorted(net.nodes[p].inputConnections)
  }

  /** A legacy node converted on its own: its type and parameters carry
      over, and its inputs are empty until the relationships fill them. */
  function FromHd(n: HdNode): (r: Node)
    ensures r.nodeTypeId == n.identifier && r.parameters == n.parameters
    ensures r.inputConnections == []
  {
    Node(n.identifier, n.parameters, [])
  }

  /** One node of a legacy network: a terminal node is recorded under the
      terminal's name unless that name is taken; a node path already present
      keeps its first definition. */
  function TransferNode(net: Network, terminalName: string, terminals: seq<Path>, n: HdNode): (r: Network)
    ensures r.nodes.Keys == net.nodes.Keys + {n.path}
    ensures n.path in net.nodes ==> r.nodes == net.nodes
    ensures n.path !in net.nodes ==> r.nodes == net.nodes[n.path := FromHd(n)]
    ensures terminalName in net.terminals ==> r.terminals == net.terminals
    ensures terminalName !in net.terminals && n.path in terminals ==>
      r.terminals == net.terminals[terminalName := Connection(n.path, terminalName)]
    ensures n.path !in terminals ==> r.terminals == net.terminals
  {
    var terms :=
      if n.path in terminals && terminalName !in net.terminals
      then net.terminals[terminalName := Connection(n.path, terminalName)]
      else net.terminals;
    if n.path in net.nodes then net.(terminals := terms)
    else Network(net.nodes[n.path := FromHd(n)], terms)
  }

  function TransferNodes(net: Network, terminalName: string, terminals: seq<Path>, nodes: seq<HdNode>): (r: Network)
    ensures r.nodes.Keys == net.nodes.Keys + set n | n in nodes :: n.path
    ensures forall p :: p in net.nodes ==> r.nodes[p] == net.nodes[p]
  {
    if |nodes| == 0 then net
    else
      var front := nodes[..|nodes| - 1];
      var r := TransferNode(TransferNodes(net, terminalName, terminals, front), terminalName, terminals, nodes[|nodes| - 1]);
      assert (set n | n in nodes :: n.path) == (set n | n in front :: n.path) + {nodes[|nodes| - 1].path} by {
        assert forall n :: n in nodes <==> n in front || n == nodes[|nodes| - 1];
      }
      r
  }

  /** The first definition of a path wins: the node converted for a path not
      present before is the first legacy node with that path. */
  lemma {:induction false} FirstDefinitionWins(net: Network, terminalName: string, terminals: seq<Path>, nodes: seq<HdNode>, i: nat)
    requires i < |nodes| && nodes[i].path !in net.nodes
    requires forall j :: 0 <= j < i ==> nodes[j].path != nodes[i].path
    ensures TransferNodes(net, terminalName, terminals, nodes).nodes[nodes[i].path] == FromHd(nodes[i])
  {
    var n := |nodes| - 1;
    var front := nodes[..n];
    var mid := TransferNodes(net, terminalName, terminals, front);
    if i < n {
      FirstDefinitionWins(net, terminalName, terminals, front, i);
      assert nodes[i].path in mid.nodes;
    } else {
      assert nodes[i] == nodes[n];
    }
  }

  /** One legacy relationship becomes an input connection on its
      destination node, replacing any earlier one for the same input; it is
      dropped when the destination node does not exist. */
  function TransferRelationship(net: Network, rel: HdRelationship): (r: Network)
    ensures r.nodes.Keys == net.nodes.Keys && r.terminals == net.terminals
    ensures rel.outputId !in net.nodes ==> r == net
    ensures rel.outputId in net.nodes ==>
      TokenMap.Find(r.nodes[rel.outputId].inputConnections, rel.outputName) ==
        Some(Connection(rel.inputId, rel.inputName))
    ensures forall p :: p in net.nodes ==>
      r.nodes[p].nodeTypeId == net.nodes[p].nodeTypeId && r.nodes[p].parameters == net.nodes[p].parameters
    ensures forall p :: p in net.nodes && p != rel.outputId ==> r.nodes[p] == net.nodes[p]
  {
    if rel.outputId !in net.nodes then net
    else
      var node := net.nodes[rel.outputId];
      var ic := TokenMap.Insert(node.inputConnections, rel.outputName, Connection(rel.inputId, rel.inputName));
      net.(nodes := net.nodes[rel.outputId := node.(inputConnections := ic)])
  }

  lemma TransferRelationshipKeepsWellFormed(net: Network, rel: HdRelationship)
    requires WellFormed(net)
    ensures WellFormed(TransferRelationship(net, rel))
  {
    if rel.outputId in net.nodes {
      var node := net.nodes[rel.outputId];
      TokenMap.InsertKeepsSorted(node.inputConnections, rel.outputName, Connection(rel.inputId, rel.inputName));
    }
  }

  function TransferRelationships(net: Network, rels: seq<HdRelationship>): (r: Network)
    ensures r.nodes.Keys == net.nodes.Keys && r.terminals == net.terminals
    ensures WellFormed(net) ==> WellFormed(r)
  {
    if |rels| == 0 then net
    else
      var mid := TransferRelationships(net, rels[..|rels| - 1]);
      if WellFormed(net) then
        TransferRelationshipKeepsWellFormed(mid, rels[|rels| - 1]);
        TransferRelationship(mid, rels[|rels| - 1])
      else TransferRelationship(mid, rels[|rels| - 1])
  }

  /** Relationships whose destination is missing have no effect. */
  lemma {:induction false} DanglingRelationshipsIgnored(net: Network, rels: seq<HdRelationship>)
    requires forall r :: r in rels ==> r.outputId !in net.nodes
    ensures TransferRelationships(net, rels) == net
  {
    if |rels| > 0 {
      DanglingRelationshipsIgnored(net, rels[..|rels| - 1]);
      assert rels[|rels| - 1] in rels;
    }
  }

  /** `ConvertLegacyHdMaterialNetwork`: each terminal's network, in map
      order, adds its nodes and then its relationships. */
  function ConvertLegacy(m: HdNetworkMap): (r: Network)
    ensures WellFormed(r)
    ensures r.nodes.Keys == set e, n | e in m.entries && n in e.1.nodes :: n.path
    ensures forall t :: t in r.terminals ==> r.terminals[t].upstreamNode in m.terminals && r.terminals[t].upstreamOutputName == t
  {
    ConvertEntries(m.entries, m.terminals)
  }

  function ConvertEntries(entries: seq<(string, HdNetwork)>, terminals: seq<Path>): (r: Network)
    ensures WellFormed(r)
    ensures r.nodes.Keys == set e, n | e in entries && n in e.1.nodes :: n.path
    ensures forall t :: t in r.terminals ==> r.terminals[t].upstreamNode in terminals && r.terminals[t].upstreamOutputName == t
  {
    if |entries| == 0 then Network(map[], map[])
    else
      var front := entries[..|entries| - 1];
      var e := entries[|entries| - 1];
      var mid := ConvertEntries(front, terminals);
      var withNodes := TransferNodes(mid, e.0, terminals, e.1.nodes);
      TransferNodesTerminals(mid, e.0, terminals, e.1.nodes);
      assert WellFormed(withNodes);
      assert (set x, n | x in entries && n in x.1.nodes :: n.path) ==
        (set x, n | x in front && n in x.1.nodes :: n.path) + (set n | n in e.1.nodes :: n.path) by {
        assert forall x :: x in entries <==> x in front || x == e;
      }
      TransferRelationships(withNodes, e.1.relationships)
  }

  /** Transferring nodes keeps well-formedness and records only terminal
      nodes, each under the terminal's own name. */
  lemma {:induction false} TransferNodesTerminals(net: Network, terminalName: string, terminals: seq<Path>, nodes: seq<HdNode>)
    requires WellFormed(net)
    requires forall t :: t in net.terminals ==> net.terminals[t].upstreamNode in terminals && net.terminals[t].upstreamOutputName == t
    ensures var r := TransferNodes(net, terminalName, terminals, nodes);
      WellFormed(r) &&
      forall t :: t in r.terminals ==> r.terminals[t].upstreamNode in terminals && r.terminals[t].upstreamOutputName == t
  {
    if |nodes| > 0 {
      TransferNodesTerminals(net, terminalName, terminals, nodes[..|nodes| - 1]);
    }
  }

  /** What a node output evaluates to: nothing, or a material node's named
      output. */
  datatype Value = Empty | Output(node: Path, output: string)

  datatype SetInputCall = SetInputCall(node: Path, input: string, value: Value)

  /** The traversal state: the nodes whose inputs have been set, and the
      `SetInput` calls made so far. */
  datatype Traversal = Traversal(visited: set<Path>, calls: seq<SetInputCall>)

  /** `st'` only adds to `st`: more visited nodes and more calls after the
      earlier ones. */
  predicate Grows(st: Traversal, st': Traversal) {
    st.visited <= st'.visited && |st.calls| <= |st'.calls| && st'.calls[..|st.calls|] == st.calls
  }

  /** `getNodeOutput`. A node with a material object has its inputs set on
      the first visit only and yields its own output, which is empty when
      the object has no output of that name (`hasOutput` stands for
      `GetOutput` of the node's class); a node without one
      passes through its first input (the least input name), or nothing when
      it has no inputs. A chain of pass-through nodes is unbounded in the
      original, so the recursion carries `fuel`. */
  function GetNodeOutput(net: Network, materialNodes: set<Path>, hasOutput: (Path, string) -> bool, conn: Connection, st: Traversal, fuel: nat): (r: (Value, Traversal))
    ensures Grows(st, r.1)
    ensures r.1.visited - st.visited <= materialNodes
    ensures forall k :: |st.calls| <= k < |r.1.calls| ==> r.1.calls[k].node in r.1.visited - st.visited
    ensures r.0.Output? ==> r.0.node in materialNodes && r.0.node in net.nodes
    ensures conn.upstreamNode !in net.nodes ==> r == (Empty, st)
    ensures conn.upstreamNode in net.nodes && conn.upstreamNode in materialNodes && fuel > 0 ==>
      r.0 == (if hasOutput(conn.upstreamNode, conn.upstreamOutputName)
              then Output(conn.upstreamNode, conn.upstreamOutputName) else Empty)
    ensures conn.upstreamNode in materialNodes && conn.upstreamNode in st.visited ==> r.1 == st
    ensures conn.upstreamNode in net.nodes && conn.upstreamNode !in materialNodes &&
            |net.nodes[conn.upstreamNode].inputConnections| == 0
            ==> r == (Empty, st)
    decreases fuel, 0
  {
    if fuel == 0 || conn.upstreamNode !in net.nodes then (Empty, st)
    else
      var p := conn.upstreamNode;
      var node := net.nodes[p];
      if p in materialNodes then
        var out := if hasOutput(p, conn.upstreamOutputName) then Output(p, conn.upstreamOutputName) else Empty;
        if p in st.visited then (out, st)
        else
          var st1 := st.(visited := st.visited + {p});
          var st2 := SetInputs(net, materialNodes, hasOutput, p, node.inputConnections, 0, st1, fuel - 1);
          assert st2.calls[..|st.calls|] == st2.calls[..|st1.calls|][..|st.calls|];
          (out, st2)
      else if |node.inputConnections| == 0 then (Empty, st)
      else GetNodeOutput(net, materialNodes, hasOutput, node.inputConnections[0].value, st, fuel - 1)
  }

  /** A pass-through node forwards its first input: when that input comes
      from a material node `q`, the result has `q`'s output exactly as a
      direct connection to `q` would, and the traversal is the one that
      direct connection makes. */
  lemma PassThroughForwards(net: Network, materialNodes: set<Path>, hasOutput: (Path, string) -> bool, conn: Connection, st: Traversal, fuel: nat)
    requires conn.upstreamNode in net.nodes && conn.upstreamNode !in materialNodes
    requires |net.nodes[conn.upstreamNode].inputConnections| > 0
    requires net.nodes[conn.upstreamNode].inputConnections[0].value.upstreamNode in net.nodes
    requires net.nodes[conn.upstreamNode].inputConnections[0].value.upstreamNode in materialNodes
    requires fuel > 1
    ensures var first := net.nodes[conn.upstreamNode].inputConnections[0].value;
      var r := GetNodeOutput(net, materialNodes, hasOutput, conn, st, fuel);
      var direct := GetNodeOutput(net, materialNodes, hasOutput, first, st, fuel - 1);
      r == direct &&
      r.0 == (if hasOutput(first.upstreamNode, first.upstreamOutputName)
              then Output(first.upstreamNode, first.upstreamOutputName) else Empty)
  {
  }

  /** The input loop for the material node at `p`, which is already marked
      visited: each connected input whose upstream output is not empty is
      set. */
  function SetInputs(net: Network, materialNodes: set<Path>, hasOutput: (Path, string) -> bool, p: Path, inputs: seq<TokenMap.Entry<Connection>>, i: nat, st: Traversal, fuel: nat): (r: Traversal)
    requires i <= |inputs| && p in st.visited
    ensures Grows(st, r)
    ensures r.visited - st.visited <= materialNodes
    ensures forall k :: |st.calls| <= k < |r.calls| ==> r.calls[k].node in (r.visited - st.visited) + {p}
    ensures forall k :: |st.calls| <= k < |r.calls| && r.calls[k].node == p ==> r.calls[k].value != Empty
    decreases fuel, |inputs| - i
  {
    if i == |inputs| then st
    else
      var (v, st1) := GetNodeOutput(net, materialNodes, hasOutput, inputs[i].value, st, fuel);
      var st2 := if v != Empty then st1.(calls := st1.calls + [SetInputCall(p, inputs[i].key, v)]) else st1;
      assert Grows(st, st2) by {
        assert st2.calls[..|st.calls|] == st1.calls[..|st.calls|];
      }
      var r := SetInputs(net, materialNodes, hasOutput, p, inputs, i + 1, st2, fuel);
      assert r.calls[..|st.calls|] == r.calls[..|st2.calls|][..|st.calls|];
      assert forall k :: |st.calls| <= k < |st2.calls| ==> r.calls[k] == st2.calls[k] by {
        assert forall k :: 0 <= k < |st2.calls| ==> r.calls[k] == r.calls[..|st2.calls|][k];
      }
      assert forall k :: |st.calls| <= k < |st1.calls| ==> st2.calls[k] == st1.calls[k];
      r
  }

  /** `getTerminalOutput`: nothing for a terminal the network lacks. */
  function GetTerminalOutput(net: Network, materialNodes: set<Path>, hasOutput: (Path, string) -> bool, terminal: string, st: Traversal, fuel: nat): (r: (Value, Traversal))
    ensures terminal !in net.terminals ==> r == (Empty, st)
    ensures Grows(st, r.1)
    ensures forall k :: |st.calls| <= k < |r.1.calls| ==> r.1.calls[k].node !in st.visited
  {
    if terminal !in net.terminals then (Empty, st)
    else GetNodeOutput(net, materialNodes, hasOutput, net.terminals[terminal], st, fuel)
  }
}
