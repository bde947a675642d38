/** `transformTopologyData`: two passes over the edges build the parent/child hierarchy of the
    drawing and the list of visible edges. */
module Hierarchy {
  import opened Text
  import opened TopologyData

  const VPC := "vpc"
  const SUBNET := "subnet"
  const VNI := "vni"
  const FLOATING_IP := "floating-ip"
  const CUDN := "cudn"
  const UDN := "udn"

  const CONTAINS := "contains"
  const CONNECTED := "connected"
  const TARGETS := "targets"

  /** The type a node is drawn as. The BFF types that the code maps one by one map to
      themselves, so only the CUDN and UDN overrides change a type. */
  function NormalizeNodeType(node: Node): string {
    var resourceType := if node.details.Some? && "resource_type" in node.details.value
                        then node.details.value["resource_type"] else "";
    if resourceType == CUDN then CUDN else if resourceType == UDN then UDN else node.typ
  }

  /** The drawn type of every id; the last node with an id decides. */
  function ResolvedTypes(nodes: seq<Node>): (types: map<string, string>)
    ensures forall id :: id in types <==> exists n :: n in nodes && n.id == id
  {
    if nodes == [] then map[]
    else
      var last := nodes[|nodes| - 1];
      assert nodes == nodes[..|nodes| - 1] + [last];
      ResolvedTypes(nodes[..|nodes| - 1])[last.id := NormalizeNodeType(last)]
  }

  datatype Hierarchy = Hierarchy(children: map<string, seq<string>>, parentOf: map<string, string>)

  function AddChild(h: Hierarchy, parent: string, child: string): Hierarchy {
    Hierarchy(h.children[parent := AddUnique(Children(h, parent), child)], h.parentOf[child := parent])
  }

  function Children(h: Hierarchy, id: string): seq<string> {
    if id in h.children then h.children[id] else []
  }

  predicate Known(types: map<string, string>, e: Edge) {
    e.source in types && e.target in types
  }

  predicate Structural(e: Edge) {
    e.typ == Some(CONTAINS) || e.typ == Some(CONNECTED)
  }

  predicate Groups(types: map<string, string>, e: Edge) {
    Structural(e) && Known(types, e)
  }

  predicate Shows(types: map<string, string>, e: Edge) {
    !Structural(e) && Known(types, e)
  }

  /** A floating IP that points at a VNI. */
  predicate Colocates(types: map<string, string>, e: Edge) {
    Shows(types, e) && e.typ == Some(TARGETS) && types[e.source] == FLOATING_IP && types[e.target] == VNI
  }

  /** Pass 1: structural edges between known nodes. */
  function Pass1(types: map<string, string>, edges: seq<Edge>, h: Hierarchy): Hierarchy {
    if edges == [] then h
    else Pass1(types, edges[1..], if Groups(types, edges[0]) then AddChild(h, edges[0].source, edges[0].target) else h)
  }

  /** A parentless floating IP joins the parent of its VNI; an empty parent id counts as none. */
  function Colocate(types: map<string, string>, h: Hierarchy, e: Edge): Hierarchy {
    if Colocates(types, e) && e.target in h.parentOf && h.parentOf[e.target] != "" && e.source !in h.parentOf
    then AddChild(h, h.parentOf[e.target], e.source)
    else h
  }

  /** Pass 2: the visible edges, in order. */
  function Pass2(types: map<string, string>, edges: seq<Edge>, h: Hierarchy): Hierarchy {
    if edges == [] then h else Pass2(types, edges[1..], Colocate(types, h, edges[0]))
  }

  const NO_HIERARCHY := Hierarchy(map[], map[])

  function StructuralHierarchy(data: Topology): Hierarchy {
    Pass1(ResolvedTypes(data.nodes), data.edges, NO_HIERARCHY)
  }

  function FullHierarchy(data: Topology): Hierarchy {
    Pass2(ResolvedTypes(data.nodes), data.edges, StructuralHierarchy(data))
  }

  datatype Status = Success | Danger | Warning

  function MapStatus(status: Option<string>): Option<Status> {
    match status
    case None => None
    case Some(s) =>
      if s == "available" then Some(Success)
      else if s == "error" then Some(Danger)
      else if s == "pending" then Some(Warning)
      else None
  }

  /** A node of the drawing; `children` is None on plain nodes. */
  datatype NodeModel = NodeModel(id: string, typ: string, caption: string, width: nat, height: nat,
                                 nodeType: string, resourceId: Option<string>, status: Option<Status>,
                                 details: Option<map<string, string>>,
                                 children: Option<seq<string>>, group: bool)

  datatype EdgeModel = EdgeModel(id: string, source: string, target: string, edgeType: string)

  function CreateNodeModel(n: Node, nodeType: string): NodeModel {
    NodeModel(n.id, nodeType, n.name, 75, 75, nodeType, n.resourceId, MapStatus(n.status), n.details, None, false)
  }

  function CreateGroupNode(n: Node, nodeType: string, children: seq<string>): NodeModel {
    NodeModel(n.id, nodeType + "-group", n.name, 400, 300, nodeType, n.resourceId, MapStatus(n.status), n.details,
              Some(children), true)
  }

  function CreateVisibleEdge(e: Edge): EdgeModel {
    EdgeModel(e.id, e.source, e.target, if e.typ.Some? then e.typ.value else TARGETS)
  }

  function ModelOf(types: map<string, string>, h: Hierarchy, n: Node): NodeModel
    requires n.id in types
  {
    var nodeType := types[n.id];
    if (nodeType == VPC || nodeType == SUBNET) && Children(h, n.id) != []
    then CreateGroupNode(n, nodeType, Children(h, n.id))
    else CreateNodeModel(n, nodeType)
  }

  datatype Drawing = Drawing(nodes: seq<NodeModel>, edges: seq<EdgeModel>)

  function ModelsOf(types: map<string, string>, h: Hierarchy, nodes: seq<Node>): seq<NodeModel>
    requires forall n :: n in nodes ==> n.id in types
  {
    seq(|nodes|, i requires 0 <= i < |nodes| => ModelOf(types, h, nodes[i]))
  }

  function VisibleEdges(types: map<string, string>, edges: seq<Edge>): seq<EdgeModel> {
    if edges == [] then []
    else (if Shows(types, edges[0]) then [CreateVisibleEdge(edges[0])] else []) + VisibleEdges(types, edges[1..])
  }

  function Transform(data: Topology): Drawing {
    var types := ResolvedTypes(data.nodes);
    Drawing(ModelsOf(types, FullHierarchy(data), data.nodes), VisibleEdges(types, data.edges))
  }

  // ---- the loops of the code ----

  method TransformTopologyData(data: Topology) returns (drawing: Drawing)
    ensures drawing == Transform(data)
  {
    var types := ResolveTypes(data.nodes);
    var h := GroupNodes(types, data.edges);
    var visible: seq<EdgeModel>;
    h, visible := ShowEdges(types, data.edges, h);
    var models := BuildModels(types, h, data.nodes);
    drawing := Drawing(models, visible);
  }

  method BuildModels(types: map<string, string>, h: Hierarchy, nodes: seq<Node>) returns (models: seq<NodeModel>)
    requires forall n :: n in nodes ==> n.id in types
    ensures models == ModelsOf(types, h, nodes)
  {
    models := [];
    for i := 0 to |nodes|
      invariant models == ModelsOf(types, h, nodes)[..i]
    {
      models := models + [ModelOf(types, h, nodes[i])];
    }
  }

  method ResolveTypes(nodes: seq<Node>) returns (types: map<string, string>)
    ensures types == ResolvedTypes(nodes)
  {
    types := map[];
    for i := 0 to |nodes|
      invariant types == ResolvedTypes(nodes[..i])
    {
      types := types[nodes[i].id := NormalizeNodeType(nodes[i])];
      assert nodes[..i + 1][..i] == nodes[..i];
    }
    assert nodes[..|nodes|] == nodes;
  }

  method GroupNodes(types: map<string, string>, edges: seq<Edge>) returns (h: Hierarchy)
    ensures h == Pass1(types, edges, NO_HIERARCHY)
  {
    h := NO_HIERARCHY;
    for i := 0 to |edges|
      invariant Pass1(types, edges[i..], h) == Pass1(types, edges, NO_HIERARCHY)
    {
      if !Structural(edges[i]) { continue; }
      if !(edges[i].source in types) || !(edges[i].target in types) { continue; }
      h := AddChild(h, edges[i].source, edges[i].target);
    }
  }

  method ShowEdges(types: map<string, string>, edges: seq<Edge>, grouped: Hierarchy)
    returns (h: Hierarchy, visible: seq<EdgeModel>)
    ensures h == Pass2(types, edges, grouped)
    ensures visible == VisibleEdges(types, edges)
  {
    h, visible := grouped, [];
    for i := 0 to |edges|
      invariant Pass2(types, edges[i..], h) == Pass2(types, edges, grouped)
      invariant visible + VisibleEdges(types, edges[i..]) == VisibleEdges(types, edges)
    {
      var e := edges[i];
      NextEdge(types, edges, i, h);
      if Structural(e) { continue; }
      if !(e.source in types) || !(e.target in types) { continue; }
      if e.typ == Some(TARGETS) && types[e.source] == FLOATING_IP && types[e.target] == VNI {
        if e.target in h.parentOf && h.parentOf[e.target] != "" && e.source !in h.parentOf {
          h := AddChild(h, h.parentOf[e.target], e.source);
        }
      }
      OneMoreVisible(visible, CreateVisibleEdge(e), VisibleEdges(types, edges[i + 1..]));
      visible := visible + [CreateVisibleEdge(e)];
    }
  }

  lemma NextEdge(types: map<string, string>, edges: seq<Edge>, i: nat, h: Hierarchy)
    requires i < |edges|
    ensures Pass2(types, edges[i..], h) == Pass2(types, edges[i + 1..], Colocate(types, h, edges[i]))
    ensures VisibleEdges(types, edges[i..])
            == (if Shows(types, edges[i]) then [CreateVisibleEdge(edges[i])] else []) + VisibleEdges(types, edges[i + 1..])
  {
    assert edges[i..][0] == edges[i] && edges[i..][1..] == edges[i + 1..];
  }

  lemma OneMoreVisible(visible: seq<EdgeModel>, e: EdgeModel, rest: seq<EdgeModel>)
    ensures visible + ([e] + rest) == visible + [e] + rest
  {}
}
