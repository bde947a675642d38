/** The filter of the topology viewer: hide nodes by type, drop hidden children, prune the
    groups left empty (in one pass), and keep the edges whose ends are still there. */
module Visibility {
  import opened Text
  import opened TopologyData
  import opened Hierarchy

  function TypeOf(m: NodeModel): string {
    if m.nodeType != "" then m.nodeType else m.typ
  }

  /** Groups always pass the type filter. */
  predicate PassesFilter(types: set<string>, m: NodeModel) {
    m.group || TypeOf(m) in types
  }

  function KeptNodes(types: set<string>, nodes: seq<NodeModel>): (r: seq<NodeModel>)
    ensures forall m :: m in r <==> m in nodes && PassesFilter(types, m)
  {
    FilterMembers(nodes, m => PassesFilter(types, m));
    Filter(nodes, m => PassesFilter(types, m))
  }

  function Ids(nodes: seq<NodeModel>): set<string> {
    set m | m in nodes :: m.id
  }

  function KeepIds(ids: set<string>, children: seq<string>): (r: seq<string>)
    ensures forall c :: c in r <==> c in children && c in ids
  {
    FilterMembers(children, c => c in ids);
    Filter(children, c => c in ids)
  }

  function Adjust(ids: set<string>, m: NodeModel): NodeModel {
    if m.group && m.children.Some? then m.(children := Some(KeepIds(ids, m.children.value))) else m
  }

  predicate EmptyGroup(m: NodeModel) {
    m.group && (m.children.None? || m.children.value == [])
  }

  /** The group is empty once hidden children are gone. */
  predicate Emptied(ids: set<string>, m: NodeModel) {
    EmptyGroup(Adjust(ids, m))
  }

  /** The adjusted nodes that are not empty groups. */
  function NonEmpty(ids: set<string>, nodes: seq<NodeModel>): seq<NodeModel> {
    if nodes == [] then []
    else
      var last := |nodes| - 1;
      NonEmpty(ids, nodes[..last]) + if Emptied(ids, nodes[last]) then [] else [Adjust(ids, nodes[last])]
  }

  /** The visible ids left when the ids of emptied groups are deleted one by one. */
  function Prune(ids: set<string>, visible: set<string>, nodes: seq<NodeModel>): set<string> {
    if nodes == [] then visible
    else Prune(ids, if Emptied(ids, nodes[0]) then visible - {nodes[0].id} else visible, nodes[1..])
  }

  function KeepEdges(ids: set<string>, edges: seq<EdgeModel>): (r: seq<EdgeModel>)
    ensures forall e :: e in r <==> e in edges && e.source in ids && e.target in ids
  {
    FilterMembers(edges, (e: EdgeModel) => e.source in ids && e.target in ids);
    Filter(edges, (e: EdgeModel) => e.source in ids && e.target in ids)
  }

  function Filtered(d: Drawing, types: set<string>): Drawing {
    var kept := KeptNodes(types, d.nodes);
    var ids := Ids(kept);
    Drawing(NonEmpty(ids, kept), KeepEdges(Prune(ids, ids, kept), d.edges))
  }

  /** The pipeline of the viewer. */
  method FilterDrawing(d: Drawing, types: set<string>) returns (out: Drawing)
    ensures out == Filtered(d, types)
  {
    var kept := KeptNodes(types, d.nodes);
    var ids := Ids(kept);
    var nodes, visible := PruneGroups(ids, kept);
    out := Drawing(nodes, KeepEdges(visible, d.edges));
  }

  /** The pruning step, which deletes from the visible ids while it filters the nodes. */
  method PruneGroups(ids: set<string>, kept: seq<NodeModel>) returns (nodes: seq<NodeModel>, visible: set<string>)
    ensures nodes == NonEmpty(ids, kept)
    ensures visible == Prune(ids, ids, kept)
  {
    nodes, visible := [], ids;
    for i := 0 to |kept|
      invariant Prune(ids, visible, kept[i..]) == Prune(ids, ids, kept)
      invariant nodes == NonEmpty(ids, kept[..i])
    {
      assert kept[i..][0] == kept[i] && kept[i..][1..] == kept[i + 1..] && kept[..i + 1][..i] == kept[..i];
      var adjusted := Adjust(ids, kept[i]);
      if EmptyGroup(adjusted) {
        visible := visible - {kept[i].id};
      } else {
        nodes := nodes + [adjusted];
      }
    }
    assert kept[..|kept|] == kept;
  }

  // ---- what the filter promises ----

  /** Nodes that share an id agree on everything the filter looks at. */
  ghost predicate Consistent(d: Drawing) {
    forall m, n :: m in d.nodes && n in d.nodes && m.id == n.id ==>
      m.group == n.group && m.children == n.children && TypeOf(m) == TypeOf(n)
  }

  /** Drawings of the transform are consistent even when node ids repeat. */
  lemma TransformConsistent(data: Topology)
    ensures Consistent(Transform(data))
  {}

  lemma UniqueIdsConsistent(d: Drawing)
    requires forall i, j :: 0 <= i < j < |d.nodes| ==> d.nodes[i].id != d.nodes[j].id
    ensures Consistent(d)
  {}

  /** Adjusting and filtering commute. */
  lemma {:induction false} NonEmptyIsFilter(ids: set<string>, nodes: seq<NodeModel>)
    ensures NonEmpty(ids, nodes) == Map((m: NodeModel) => Adjust(ids, m), Filter(nodes, (m: NodeModel) => !Emptied(ids, m)))
  {
    if nodes != [] {
      var last := |nodes| - 1;
      NonEmptyIsFilter(ids, nodes[..last]);
    }
  }

  /** The positions of the nodes that are not emptied. */
  lemma NonEmptyAt(ids: set<string>, nodes: seq<NodeModel>)
    returns (at: seq<nat>)
    ensures |NonEmpty(ids, nodes)| == |at|
    ensures forall k :: 0 <= k < |at| ==> at[k] < |nodes| && NonEmpty(ids, nodes)[k] == Adjust(ids, nodes[at[k]])
    ensures forall k, l :: 0 <= k < l < |at| ==> at[k] < at[l]
    ensures Keeps(at, nodes, (m: NodeModel) => !Emptied(ids, m))
  {
    NonEmptyIsFilter(ids, nodes);
    at := FilterAt(nodes, (m: NodeModel) => !Emptied(ids, m));
  }

  lemma NonEmptyMeaning(ids: set<string>, nodes: seq<NodeModel>, m: NodeModel)
    requires m in nodes && !Emptied(ids, m)
    ensures Adjust(ids, m) in NonEmpty(ids, nodes)
  {
    var at := NonEmptyAt(ids, nodes);
    var i :| 0 <= i < |nodes| && nodes[i] == m;
    var k :| 0 <= k < |at| && at[k] == i;
    assert NonEmpty(ids, nodes)[k] == Adjust(ids, m);
  }

  lemma NonEmptySource(ids: set<string>, nodes: seq<NodeModel>, a: NodeModel)
    returns (m: NodeModel)
    requires a in NonEmpty(ids, nodes)
    ensures m in nodes && !Emptied(ids, m) && a == Adjust(ids, m)
  {
    var at := NonEmptyAt(ids, nodes);
    var k :| 0 <= k < |at| && NonEmpty(ids, nodes)[k] == a;
    assert at[k] in at;
    m := nodes[at[k]];
  }

  lemma {:induction false} PruneMeaning(ids: set<string>, visible: set<string>, nodes: seq<NodeModel>, id: string)
    ensures id in Prune(ids, visible, nodes) <==>
            id in visible && forall m :: m in nodes && m.id == id ==> !Emptied(ids, m)
  {
    if nodes != [] {
      PruneMeaning(ids, if Emptied(ids, nodes[0]) then visible - {nodes[0].id} else visible, nodes[1..], id);
      assert nodes == [nodes[0]] + nodes[1..];
    }
  }

  lemma ConsistentEmptied(d: Drawing, ids: set<string>, m: NodeModel, n: NodeModel)
    requires Consistent(d) && m in d.nodes && n in d.nodes && m.id == n.id
    ensures Emptied(ids, m) == Emptied(ids, n)
  {}

  /** The ids that remain visible are those of the output nodes. */
  lemma VisibleIdsAreOutput(d: Drawing, types: set<string>)
    requires Consistent(d)
    ensures var kept := KeptNodes(types, d.nodes);
            Prune(Ids(kept), Ids(kept), kept) == Ids(Filtered(d, types).nodes)
  {
    var kept := KeptNodes(types, d.nodes);
    var ids := Ids(kept);
    var out := NonEmpty(ids, kept);
    forall id
      ensures id in Prune(ids, ids, kept) <==> id in Ids(out)
    {
      PruneMeaning(ids, ids, kept, id);
      if id in Prune(ids, ids, kept) {
        var m :| m in kept && m.id == id;
        NonEmptyMeaning(ids, kept, m);
      }
      if id in Ids(out) {
        var a :| a in out && a.id == id;
        var m := NonEmptySource(ids, kept, a);
        forall n | n in kept && n.id == id
          ensures !Emptied(ids, n)
        {
          ConsistentEmptied(d, ids, m, n);
        }
      }
    }
  }

  /** An output id whose node was pruned belongs to an emptied group. */
  lemma MissingIsEmptied(d: Drawing, types: set<string>, c: string)
    returns (g: NodeModel)
    requires Consistent(d) && c in Ids(KeptNodes(types, d.nodes)) && c !in Ids(Filtered(d, types).nodes)
    ensures g in d.nodes && g.group && g.id == c && Emptied(Ids(KeptNodes(types, d.nodes)), g)
  {
    var kept := KeptNodes(types, d.nodes);
    VisibleIdsAreOutput(d, types);
    PruneMeaning(Ids(kept), Ids(kept), kept, c);
    g :| g in kept && g.id == c && Emptied(Ids(kept), g);
  }

  /** An edge stays, in order and as often as before, exactly when both ends are output nodes. */
  lemma EdgesExact(d: Drawing, types: set<string>)
    requires Consistent(d)
    ensures Filtered(d, types).edges == KeepEdges(Ids(Filtered(d, types).nodes), d.edges)
    ensures forall e :: e in Filtered(d, types).edges <==>
                        && e in d.edges
                        && e.source in Ids(Filtered(d, types).nodes) && e.target in Ids(Filtered(d, types).nodes)
  {
    VisibleIdsAreOutput(d, types);
  }

  // ---- which nodes, children and edges are left, in what order and how often ----

  /** The id is that of a group or of a node whose type is visible. */
  ghost predicate Passing(d: Drawing, types: set<string>, id: string) {
    exists n ::
      n in d.nodes && n.id == id && (n.group || (if n.nodeType != "" then n.nodeType else n.typ) in types)
  }

  lemma PassingMeaning(d: Drawing, types: set<string>, id: string)
    ensures id in Ids(KeptNodes(types, d.nodes)) <==> Passing(d, types, id)
  {}

  lemma DrawnMeaning(d: Drawing, types: set<string>, m: NodeModel)
    ensures var ids := Ids(KeptNodes(types, d.nodes));
            PassesFilter(types, m) && !Emptied(ids, m) <==>
            if m.group then m.children.Some? && exists c :: c in m.children.value && Passing(d, types, c)
            else (if m.nodeType != "" then m.nodeType else m.typ) in types
  {
    if m.group {
      KeptChildMeaning(d, types, m);
      if c :| m.children.Some? && c in m.children.value && Passing(d, types, c) {
        PassingMeaning(d, types, c);
      }
    }
  }

  lemma Compose<T(!new)>(s: seq<T>, r: seq<T>, a: seq<nat>, b: seq<nat>, p: T -> bool, q: T -> bool)
    returns (at: seq<nat>)
    requires Picks(r, s, a) && Keeps(a, s, p) && Keeps(b, r, q)
    requires forall k :: 0 <= k < |b| ==> b[k] < |r|
    requires forall k, l :: 0 <= k < l < |b| ==> b[k] < b[l]
    ensures |at| == |b| && forall k :: 0 <= k < |b| ==> at[k] < |s| && s[at[k]] == r[b[k]]
    ensures forall k, l :: 0 <= k < l < |at| ==> at[k] < at[l]
    ensures Keeps(at, s, x => p(x) && q(x))
  {
    at := seq(|b|, k requires 0 <= k < |b| => a[b[k]]);
    forall i | 0 <= i < |s|
      ensures i in at <==> p(s[i]) && q(s[i])
    {
      if i in at {
        var k :| 0 <= k < |at| && at[k] == i;
        assert a[b[k]] in a && b[k] in b;
      }
      if p(s[i]) && q(s[i]) {
        var j :| 0 <= j < |a| && a[j] == i;
        assert j in b;
        var k :| 0 <= k < |b| && b[k] == j;
        assert at[k] == i;
      }
    }
  }

  /** A plain node is drawn exactly when its type is visible, a group exactly when it has a child that
      passes; nodes keep their order, come as often as before, and only a group's children change. */
  lemma NodesExact(d: Drawing, types: set<string>)
    returns (at: seq<nat>)
    ensures var out := Filtered(d, types).nodes;
            && |out| == |at|
            && (forall k :: 0 <= k < |at| ==>
                  && at[k] < |d.nodes| && out[k].(children := d.nodes[at[k]].children) == d.nodes[at[k]]
                  && (!out[k].group ==> out[k] == d.nodes[at[k]]))
    ensures forall k, l :: 0 <= k < l < |at| ==> at[k] < at[l]
    ensures forall i :: 0 <= i < |d.nodes| ==>
              (i in at <==>
               var m := d.nodes[i];
               if m.group then m.children.Some? && exists c :: c in m.children.value && Passing(d, types, c)
               else (if m.nodeType != "" then m.nodeType else m.typ) in types)
  {
    var kept := KeptNodes(types, d.nodes);
    var ids := Ids(kept);
    var p, q := (m: NodeModel) => PassesFilter(types, m), (m: NodeModel) => !Emptied(ids, m);
    var a := FilterAt(d.nodes, m => PassesFilter(types, m));
    var b := NonEmptyAt(ids, kept);
    at := Compose(d.nodes, kept, a, b, p, q);
    forall i | 0 <= i < |d.nodes|
      ensures i in at <==>
              var m := d.nodes[i];
              if m.group then m.children.Some? && exists c :: c in m.children.value && Passing(d, types, c)
              else (if m.nodeType != "" then m.nodeType else m.typ) in types
    {
      DrawnMeaning(d, types, d.nodes[i]);
    }
  }

  /** The children of an output group are those that pass, in their order. */
  lemma ChildrenExact(d: Drawing, types: set<string>, a: NodeModel)
    returns (m: NodeModel, at: seq<nat>)
    requires a in Filtered(d, types).nodes && a.group
    ensures m in d.nodes && a.(children := m.children) == m && m.children.Some? && a.children.Some?
    ensures Picks(a.children.value, m.children.value, at)
    ensures forall i :: 0 <= i < |m.children.value| ==> (i in at <==> Passing(d, types, m.children.value[i]))
  {
    var kept := KeptNodes(types, d.nodes);
    var ids := Ids(kept);
    m := NonEmptySource(ids, kept, a);
    at := FilterAt(m.children.value, c => c in ids);
    forall i | 0 <= i < |m.children.value|
      ensures i in at <==> Passing(d, types, m.children.value[i])
    {
      PassingMeaning(d, types, m.children.value[i]);
    }
  }

  /** The edges are those between output nodes, in their order. */
  lemma EdgesInOrder(d: Drawing, types: set<string>)
    returns (at: seq<nat>)
    requires Consistent(d)
    ensures Picks(Filtered(d, types).edges, d.edges, at)
    ensures forall i :: 0 <= i < |d.edges| ==>
              (i in at <==>
               && (exists n :: n in Filtered(d, types).nodes && n.id == d.edges[i].source)
               && (exists n :: n in Filtered(d, types).nodes && n.id == d.edges[i].target))
  {
    EdgesExact(d, types);
    var ids := Ids(Filtered(d, types).nodes);
    at := FilterAt(d.edges, (e: EdgeModel) => e.source in ids && e.target in ids);
  }

  /** No output group is empty; its children are those of the input group that passed the
      type filter, and one is missing only if it is itself a group emptied in the same pass. */
  lemma GroupsFilled(d: Drawing, types: set<string>, a: NodeModel)
    returns (m: NodeModel)
    requires Consistent(d) && a in Filtered(d, types).nodes && a.group
    ensures a.children.Some? && a.children.value != []
    ensures m in d.nodes && m.group && m.id == a.id && m.children.Some?
    ensures var ids := Ids(KeptNodes(types, d.nodes));
            && (forall c :: c in a.children.value <==> c in m.children.value && c in ids)
            && (forall c :: c in a.children.value && c !in Ids(Filtered(d, types).nodes) ==>
                              exists g :: g in d.nodes && g.group && g.id == c && Emptied(ids, g))
  {
    var kept := KeptNodes(types, d.nodes);
    var ids := Ids(kept);
    m := NonEmptySource(ids, kept, a);
    forall c | c in a.children.value && c !in Ids(Filtered(d, types).nodes)
      ensures exists g :: g in d.nodes && g.group && g.id == c && Emptied(ids, g)
    {
      var g := MissingIsEmptied(d, types, c);
    }
  }

  /** Every child of an output group is an output node. */
  ghost predicate Closed(d: Drawing) {
    forall a, c :: a in d.nodes && a.group && a.children.Some? && c in a.children.value ==> c in Ids(d.nodes)
  }

  ghost predicate HasKeptChild(d: Drawing, types: set<string>, g: NodeModel) {
    g.children.Some? && exists c :: c in g.children.value && c in Ids(KeptNodes(types, d.nodes))
  }

  ghost predicate Nested(d: Drawing, p: NodeModel, g: NodeModel) {
    p in d.nodes && p.group && p.children.Some? && g in d.nodes && g.group && g.id in p.children.value
  }

  lemma KeptChildMeaning(d: Drawing, types: set<string>, g: NodeModel)
    requires g.group
    ensures HasKeptChild(d, types, g) <==> !Emptied(Ids(KeptNodes(types, d.nodes)), g)
  {
    var a := Adjust(Ids(KeptNodes(types, d.nodes)), g);
    if a.children.Some? && a.children.value != [] {
      assert a.children.value[0] in a.children.value;
    }
  }

  /** Pruning is a single pass, so it leaves no dangling child exactly when every group nested
      in a group has a child that passes the type filter. */
  lemma ClosedIff(d: Drawing, types: set<string>)
    requires Consistent(d)
    ensures Closed(Filtered(d, types)) <==> forall p, g :: Nested(d, p, g) ==> HasKeptChild(d, types, g)
  {
    var kept := KeptNodes(types, d.nodes);
    var ids := Ids(kept);
    var out := Filtered(d, types);
    if Closed(out) {
      forall p, g | Nested(d, p, g)
        ensures HasKeptChild(d, types, g)
      {
        NestedKept(d, types, p, g);
      }
    }
    if forall p, g :: Nested(d, p, g) ==> HasKeptChild(d, types, g) {
      forall a, c | a in out.nodes && a.group && a.children.Some? && c in a.children.value
        ensures c in Ids(out.nodes)
      {
        var m := GroupsFilled(d, types, a);
        if c !in Ids(out.nodes) {
          var g := MissingIsEmptied(d, types, c);
          KeptChildMeaning(d, types, g);
          assert Nested(d, m, g);
        }
      }
    }
  }

  lemma NestedKept(d: Drawing, types: set<string>, p: NodeModel, g: NodeModel)
    requires Consistent(d) && Nested(d, p, g) && Closed(Filtered(d, types))
    ensures HasKeptChild(d, types, g)
  {
    var kept := KeptNodes(types, d.nodes);
    var ids := Ids(kept);
    assert g in kept && g.id in ids;
    var a := Adjust(ids, p);
    assert g.id in a.children.value;
    NonEmptyMeaning(ids, kept, p);
    VisibleIdsAreOutput(d, types);
    PruneMeaning(ids, ids, kept, g.id);
    KeptChildMeaning(d, types, g);
  }

  lemma {:induction false} FilterTwice<T(!new)>(s: seq<T>, p: T -> bool, q: T -> bool)
    requires forall x :: p(x) ==> q(x)
    ensures Filter(Filter(s, q), p) == Filter(s, p)
  {
    if s != [] {
      var last := |s| - 1;
      var rest := Filter(s[..last], q);
      FilterTwice(s[..last], p, q);
      if q(s[last]) {
        assert Filter(s, q) == rest + [s[last]];
        assert (rest + [s[last]])[..|rest|] == rest;
      } else {
        assert Filter(s, q) == rest;
      }
    }
  }

  lemma KeepEdgesTwice(small: set<string>, large: set<string>, edges: seq<EdgeModel>)
    requires small <= large
    ensures KeepEdges(small, KeepEdges(large, edges)) == KeepEdges(small, edges)
  {
    FilterTwice(edges, (e: EdgeModel) => e.source in small && e.target in small,
                (e: EdgeModel) => e.source in large && e.target in large);
  }

  /** Showing more types only adds: every output node stays, with at least the same children,
      and the edges for fewer types are those for more types restricted to the fewer nodes. */
  lemma Monotone(d: Drawing, types: set<string>, more: set<string>)
    requires Consistent(d) && types <= more
    ensures Ids(Filtered(d, types).nodes) <= Ids(Filtered(d, more).nodes)
    ensures forall a :: a in Filtered(d, types).nodes ==>
              exists b :: b in Filtered(d, more).nodes && Grows(a, b)
    ensures Filtered(d, types).edges == KeepEdges(Ids(Filtered(d, types).nodes), Filtered(d, more).edges)
  {
    forall a | a in Filtered(d, types).nodes
      ensures exists b :: b in Filtered(d, more).nodes && Grows(a, b)
    {
      var b := NodeGrows(d, types, more, a);
    }
    EdgesExact(d, types);
    EdgesExact(d, more);
    KeepEdgesTwice(Ids(Filtered(d, types).nodes), Ids(Filtered(d, more).nodes), d.edges);
  }

  /** `b` is the same node, a group with at least the children of `a`. */
  ghost predicate Grows(a: NodeModel, b: NodeModel) {
    && b.(children := a.children) == a
    && (a.group ==> a.children.Some? && b.children.Some? && forall c :: c in a.children.value ==> c in b.children.value)
  }

  lemma NodeGrows(d: Drawing, types: set<string>, more: set<string>, a: NodeModel)
    returns (b: NodeModel)
    requires types <= more && a in Filtered(d, types).nodes
    ensures b in Filtered(d, more).nodes && Grows(a, b)
  {
    var kept, kept' := KeptNodes(types, d.nodes), KeptNodes(more, d.nodes);
    assert Ids(kept) <= Ids(kept');
    var m := NonEmptySource(Ids(kept), kept, a);
    b := Adjust(Ids(kept'), m);
    if a.group {
      assert a.children.value[0] in b.children.value;
    }
    NonEmptyMeaning(Ids(kept'), kept', m);
  }

  const NESTED_NODES := [Node("v", "", VPC, None, None, None), Node("s", "", SUBNET, None, None, None),
                        Node("n", "", VNI, None, None, None)]

  const NESTED_EDGES := [Edge("a", "v", "s", Some(CONTAINS)), Edge("b", "s", "n", Some(CONNECTED))]

  lemma NestedTypes()
    ensures ResolvedTypes(NESTED_NODES) == map["v" := VPC, "s" := SUBNET, "n" := VNI]
  {
    var one, two := NESTED_NODES[..1], NESTED_NODES[..2];
    assert NESTED_NODES[..|NESTED_NODES| - 1] == two && two[..|two| - 1] == one && one[..|one| - 1] == [];
    assert ResolvedTypes(one) == map["v" := VPC];
    assert ResolvedTypes(two) == map["v" := VPC, "s" := SUBNET];
  }

  lemma TwoGroupEdges(types: map<string, string>, a: Edge, b: Edge, h: Hierarchy)
    requires Groups(types, a) && Groups(types, b)
    ensures Pass1(types, [a, b], h) == AddChild(AddChild(h, a.source, a.target), b.source, b.target)
    ensures Pass2(types, [a, b], h) == h
  {
    var h1 := AddChild(h, a.source, a.target);
    assert [a, b][1..] == [b] && [b][1..] == [];
    assert Pass1(types, [b], h1) == Pass1(types, [b][1..], AddChild(h1, b.source, b.target));
    assert Pass2(types, [b], h) == Pass2(types, [b][1..], h);
  }

  lemma NestedHierarchy()
    ensures var h := FullHierarchy(Topology(NESTED_NODES, NESTED_EDGES));
            Children(h, "v") == ["s"] && Children(h, "s") == ["n"]
  {
    var types, a, b := ResolvedTypes(NESTED_NODES), NESTED_EDGES[0], NESTED_EDGES[1];
    NestedTypes();
    assert "v"[0] == 'v' && "s"[0] == 's' && "n"[0] == 'n';
    assert NESTED_EDGES == [a, b];
    TwoGroupEdges(types, a, b, NO_HIERARCHY);
    var h1 := AddChild(NO_HIERARCHY, "v", "s");
    TwoGroupEdges(types, a, b, AddChild(h1, "s", "n"));
  }

  lemma NestedDrawing()
    ensures var d := Transform(Topology(NESTED_NODES, NESTED_EDGES));
            && d.nodes[0].group && d.nodes[0].children == Some(["s"])
            && d.nodes[1].group && d.nodes[1].children == Some(["n"]) && d.nodes[1].id == "s"
            && d.nodes[2].id == "n" && !d.nodes[2].group
            && forall m :: m in d.nodes && m.group ==> m.id != "n"
  {
    NestedTypes();
    NestedHierarchy();
    assert "v"[0] == 'v' && "s"[0] == 's' && "n"[0] == 'n';
  }

  /** A VPC that contains a subnet to which one VNI is connected; hiding VNIs empties and prunes the
      subnet, and the VPC group keeps listing it although it is no longer drawn. */
  lemma NestedGroupDangles()
    ensures !Closed(Filtered(Transform(Topology(NESTED_NODES, NESTED_EDGES)), {}))
  {
    var d := Transform(Topology(NESTED_NODES, NESTED_EDGES));
    NestedDrawing();
    TransformConsistent(Topology(NESTED_NODES, NESTED_EDGES));
    var vpc, subnet := d.nodes[0], d.nodes[1];
    assert Nested(d, vpc, subnet) by {
      assert vpc in d.nodes && subnet in d.nodes;
    }
    forall m | m in KeptNodes({}, d.nodes)
      ensures m.id != "n"
    {
      assert m in d.nodes && m.group;
    }
    assert !HasKeptChild(d, {}, subnet);
    ClosedIff(d, {});
  }
}
