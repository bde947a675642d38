/** What the hierarchy of the drawing means in terms of the edges, and when it is a forest. */
module HierarchyProperties {
  import opened Text
  import opened TopologyData
  import opened Hierarchy

  function Parent(parentOf: map<string, string>, id: string): Option<string> {
    if id in parentOf then Some(parentOf[id]) else None
  }

  ghost predicate GroupEdge(types: map<string, string>, edges: seq<Edge>, p: string, c: string) {
    exists e :: e in edges && Groups(types, e) && e.source == p && e.target == c
  }

  /** The source of the last structural edge into `c`. */
  function LastSource(types: map<string, string>, edges: seq<Edge>, c: string): Option<string> {
    if edges == [] then None
    else
      var later := LastSource(types, edges[1..], c);
      if later.Some? then later
      else if Groups(types, edges[0]) && edges[0].target == c then Some(edges[0].source)
      else None
  }

  /** The parent of the VNI in the first edge by which floating IP `f` targets a VNI that has one. */
  function FirstHome(types: map<string, string>, edges: seq<Edge>, parentOf: map<string, string>, f: string)
    : Option<string>
  {
    if edges == [] then None
    else if Colocates(types, edges[0]) && edges[0].source == f && Attached(parentOf, edges[0].target)
    then Some(parentOf[edges[0].target])
    else FirstHome(types, edges[1..], parentOf, f)
  }

  predicate Attached(parentOf: map<string, string>, id: string) {
    id in parentOf && parentOf[id] != ""
  }

  lemma {:induction false} Pass1Meaning(types: map<string, string>, edges: seq<Edge>, h: Hierarchy, p: string, c: string)
    ensures c in Children(Pass1(types, edges, h), p) <==> c in Children(h, p) || GroupEdge(types, edges, p, c)
    ensures Parent(Pass1(types, edges, h).parentOf, c)
            == if LastSource(types, edges, c).Some? then LastSource(types, edges, c) else Parent(h.parentOf, c)
  {
    if edges != [] {
      var e := edges[0];
      var h' := if Groups(types, e) then AddChild(h, e.source, e.target) else h;
      Pass1Meaning(types, edges[1..], h', p, c);
      assert edges == [e] + edges[1..];
      assert GroupEdge(types, edges, p, c) <==>
             GroupEdge(types, edges[1..], p, c) || (Groups(types, e) && e.source == p && e.target == c);
    }
  }

  lemma {:induction false} LastSourceIsGroupEdge(types: map<string, string>, edges: seq<Edge>, c: string)
    ensures LastSource(types, edges, c).Some? ==> GroupEdge(types, edges, LastSource(types, edges, c).value, c)
    ensures (exists p :: GroupEdge(types, edges, p, c)) ==> LastSource(types, edges, c).Some?
  {
    if edges != [] {
      LastSourceIsGroupEdge(types, edges[1..], c);
      assert edges == [edges[0]] + edges[1..];
      if p :| GroupEdge(types, edges, p, c) {
        var e :| e in edges && Groups(types, e) && e.source == p && e.target == c;
        assert e == edges[0] || GroupEdge(types, edges[1..], p, c);
      }
    }
  }

  /** The last edge of type "contains" or "connected" between known nodes that ends in `c`. */
  lemma {:induction false} LastSourceMeaning(types: map<string, string>, edges: seq<Edge>, c: string, i: nat)
    requires i < |edges| && edges[i].target == c && c in types && edges[i].source in types
    requires edges[i].typ == Some("contains") || edges[i].typ == Some("connected")
    requires forall j :: i < j < |edges| && edges[j].target == c && edges[j].source in types ==>
                           edges[j].typ != Some("contains") && edges[j].typ != Some("connected")
    ensures LastSource(types, edges, c) == Some(edges[i].source)
  {
    if i > 0 {
      LastSourceMeaning(types, edges[1..], c, i - 1);
    } else {
      NoLastSource(types, edges[1..], c);
    }
  }

  lemma {:induction false} NoLastSource(types: map<string, string>, edges: seq<Edge>, c: string)
    ensures LastSource(types, edges, c).None? <==>
            forall e :: e in edges && e.target == c && c in types && e.source in types ==>
                          e.typ != Some("contains") && e.typ != Some("connected")
  {
    if edges != [] {
      NoLastSource(types, edges[1..], c);
      assert edges == [edges[0]] + edges[1..];
    }
  }

  lemma GroupEdgeMeaning(nodes: seq<Node>, edges: seq<Edge>, p: string, c: string)
    ensures GroupEdge(ResolvedTypes(nodes), edges, p, c) <==>
            && (exists n :: n in nodes && n.id == p) && (exists n :: n in nodes && n.id == c)
            && exists e ::
                 && e in edges && e.source == p && e.target == c
                 && (e.typ == Some("contains") || e.typ == Some("connected"))
  {
    if e :| e in edges && e.source == p && e.target == c && (e.typ == Some("contains") || e.typ == Some("connected")) {
      assert p in ResolvedTypes(nodes) && c in ResolvedTypes(nodes) ==> Groups(ResolvedTypes(nodes), e);
    }
  }

  /** The edge may co-locate `f`: of type "targets", from a floating IP to a VNI with a parent. */
  ghost predicate Homes(types: map<string, string>, parentOf: map<string, string>, e: Edge, f: string) {
    && e.typ == Some("targets") && e.source == f
    && f in types && types[f] == "floating-ip" && e.target in types && types[e.target] == "vni"
    && e.target in parentOf && parentOf[e.target] != ""
  }

  lemma HomesHere(types: map<string, string>, parentOf: map<string, string>, e: Edge, f: string)
    ensures Homes(types, parentOf, e, f) <==> Colocates(types, e) && e.source == f && Attached(parentOf, e.target)
  {
    assert |"targets"| == 7 && |"contains"| == 8 && |"connected"| == 9;
  }

  /** The home is the parent of the VNI of the first such edge. */
  lemma {:induction false} FirstHomeMeaning(types: map<string, string>, edges: seq<Edge>, parentOf: map<string, string>,
                                            f: string, i: nat)
    requires i < |edges| && Homes(types, parentOf, edges[i], f)
    requires forall j :: 0 <= j < i ==> !Homes(types, parentOf, edges[j], f)
    ensures FirstHome(types, edges, parentOf, f) == Some(parentOf[edges[i].target])
  {
    if i > 0 {
      FirstHomeMeaning(types, edges[1..], parentOf, f, i - 1);
    }
  }

  lemma {:induction false} NoFirstHome(types: map<string, string>, edges: seq<Edge>, parentOf: map<string, string>,
                                       f: string)
    ensures FirstHome(types, edges, parentOf, f).None? <==> forall e :: e in edges ==> !Homes(types, parentOf, e, f)
  {
    if edges != [] {
      NoFirstHome(types, edges[1..], parentOf, f);
      HomesHere(types, parentOf, edges[0], f);
      assert edges == [edges[0]] + edges[1..];
    }
  }

  /** During pass 2 only floating IPs have gained a parent. */
  ghost predicate Grown(types: map<string, string>, before: map<string, string>, now: map<string, string>) {
    && (forall c :: c in before ==> c in now && now[c] == before[c])
    && (forall c :: c in now && c !in before ==> c in types && types[c] == FLOATING_IP)
  }

  lemma {:induction false} Pass2Meaning(types: map<string, string>, edges: seq<Edge>, h: Hierarchy,
                                        before: map<string, string>, p: string, c: string)
    requires Grown(types, before, h.parentOf)
    ensures Parent(Pass2(types, edges, h).parentOf, c)
            == if c in h.parentOf then Some(h.parentOf[c]) else FirstHome(types, edges, before, c)
    ensures c in Children(Pass2(types, edges, h), p) <==>
            c in Children(h, p) || (c !in h.parentOf && FirstHome(types, edges, before, c) == Some(p))
  {
    if edges != [] {
      var e := edges[0];
      var h' := Colocate(types, h, e);
      if Colocates(types, e) {
        assert e.target in h.parentOf <==> e.target in before;
      }
      Pass2Meaning(types, edges[1..], h', before, p, c);
    }
  }

  /** The whole hierarchy, for every input: children are the targets of structural edges and the
      floating IPs whose first usable edge leads there; parents set by pass 1 (the last structural
      edge wins) are never changed by pass 2. */
  lemma HierarchyMeaning(data: Topology, p: string, c: string)
    ensures var types := ResolvedTypes(data.nodes);
            var home := FirstHome(types, data.edges, StructuralHierarchy(data).parentOf, c);
            var last := LastSource(types, data.edges, c);
            && (c in Children(FullHierarchy(data), p) <==>
                GroupEdge(types, data.edges, p, c) || (last.None? && home == Some(p)))
            && Parent(FullHierarchy(data).parentOf, c) == (if last.Some? then last else home)
            && Parent(StructuralHierarchy(data).parentOf, c) == last
  {
    var types := ResolvedTypes(data.nodes);
    var h := StructuralHierarchy(data);
    Pass1Meaning(types, data.edges, NO_HIERARCHY, p, c);
    Pass2Meaning(types, data.edges, h, h.parentOf, p, c);
  }

  // ---- inverses ----

  ghost predicate Inverse(h: Hierarchy) {
    forall p, c :: c in Children(h, p) <==> Parent(h.parentOf, c) == Some(p)
  }

  /** No node is the target of structural edges from two sources. */
  ghost predicate SingleParents(data: Topology) {
    forall p, q, c ::
      GroupEdge(ResolvedTypes(data.nodes), data.edges, p, c) && GroupEdge(ResolvedTypes(data.nodes), data.edges, q, c)
      ==> p == q
  }

  /** The parent and the children map are inverses exactly when parents are unique. */
  lemma InverseIff(data: Topology)
    ensures Inverse(FullHierarchy(data)) <==> SingleParents(data)
  {
    var types, h := ResolvedTypes(data.nodes), FullHierarchy(data);
    forall p, c
      ensures SingleParents(data) ==> (c in Children(h, p) <==> Parent(h.parentOf, c) == Some(p))
      ensures GroupEdge(types, data.edges, p, c) ==> c in Children(h, p)
    {
      HierarchyMeaning(data, p, c);
      LastSourceIsGroupEdge(types, data.edges, c);
    }
    if Inverse(h) {
      forall p, q, c | GroupEdge(types, data.edges, p, c) && GroupEdge(types, data.edges, q, c)
        ensures p == q
      {
        assert c in Children(h, p) && c in Children(h, q);
        assert Parent(h.parentOf, c) == Some(p) && Parent(h.parentOf, c) == Some(q);
      }
    }
  }

  // ---- forests ----

  /** The ancestor `n` levels above `x`. */
  function Up(parentOf: map<string, string>, x: string, n: nat): Option<string> {
    if n == 0 then Some(x)
    else
      var y := Up(parentOf, x, n - 1);
      if y.None? then None else Parent(parentOf, y.value)
  }

  ghost predicate Rooted(parentOf: map<string, string>, x: string) {
    exists n: nat :: Up(parentOf, x, n).None?
  }

  /** Climbing from any node ends at a root. */
  ghost predicate Forest(parentOf: map<string, string>) {
    forall x :: Rooted(parentOf, x)
  }

  lemma {:induction false} UpAdd(parentOf: map<string, string>, x: string, a: nat, b: nat)
    requires Up(parentOf, x, a).Some?
    ensures Up(parentOf, x, a + b) == Up(parentOf, Up(parentOf, x, a).value, b)
  {
    if b > 0 {
      UpAdd(parentOf, x, a, b - 1);
    }
  }

  lemma {:induction false} UpStays(parentOf: map<string, string>, x: string, a: nat, b: nat)
    requires a <= b && Up(parentOf, x, a).None?
    ensures Up(parentOf, x, b).None?
    decreases b
  {
    if a < b {
      UpStays(parentOf, x, a, b - 1);
    }
  }

  /** A node is rooted exactly when its parent, if any, is. */
  lemma RootedStep(parentOf: map<string, string>, x: string)
    ensures Rooted(parentOf, x) <==> x !in parentOf || Rooted(parentOf, parentOf[x])
  {
    assert Up(parentOf, x, 0) == Some(x) && Up(parentOf, x, 1) == Parent(parentOf, x);
    if x in parentOf {
      if n: nat :| Up(parentOf, x, n).None? {
        UpAdd(parentOf, x, 1, n - 1);
      }
      if n: nat :| Up(parentOf, parentOf[x], n).None? {
        UpAdd(parentOf, x, 1, n);
      }
    }
  }

  /** A node above itself has no root. */
  lemma {:induction false} CycleNotRooted(parentOf: map<string, string>, x: string, k: nat, n: nat)
    requires k >= 1 && Up(parentOf, x, k) == Some(x)
    ensures Up(parentOf, x, n).Some?
    decreases n
  {
    if n < k {
      if Up(parentOf, x, n).None? {
        UpStays(parentOf, x, n, k);
      }
    } else {
      UpAdd(parentOf, x, k, n - k);
      CycleNotRooted(parentOf, x, k, n - k);
    }
  }

  lemma ForestHasNoCycle(parentOf: map<string, string>, x: string, k: nat)
    requires Forest(parentOf) && k >= 1
    ensures Up(parentOf, x, k) != Some(x)
  {
    if Up(parentOf, x, k) == Some(x) {
      assert Rooted(parentOf, x);
      var n: nat :| Up(parentOf, x, n).None?;
      CycleNotRooted(parentOf, x, k, n);
    }
  }

  /** No parentless floating IP is an ancestor of a VNI that has a (non-empty) parent. */
  ghost predicate NoFloatingIpAboveVni(types: map<string, string>, parentOf: map<string, string>) {
    forall f, v, n: nat ::
      (&& f in types && types[f] == FLOATING_IP && f !in parentOf
       && v in types && types[v] == VNI && Attached(parentOf, v)) ==> Up(parentOf, v, n) != Some(f)
  }

  lemma {:induction false} HomeIsVniParent(types: map<string, string>, edges: seq<Edge>, parentOf: map<string, string>,
                                           f: string)
    returns (v: string)
    requires FirstHome(types, edges, parentOf, f).Some?
    ensures f in types && types[f] == FLOATING_IP && v in types && types[v] == VNI
    ensures Attached(parentOf, v) && FirstHome(types, edges, parentOf, f) == Some(parentOf[v])
  {
    if Colocates(types, edges[0]) && edges[0].source == f && Attached(parentOf, edges[0].target) {
      v := edges[0].target;
    } else {
      v := HomeIsVniParent(types, edges[1..], parentOf, f);
    }
  }

  lemma NoHomeAboveVni(types: map<string, string>, edges: seq<Edge>, parentOf: map<string, string>,
                       v: string, n: nat, x: string)
    requires NoFloatingIpAboveVni(types, parentOf) && v in types && types[v] == VNI && Attached(parentOf, v)
    requires Up(parentOf, v, n) == Some(x) && x !in parentOf
    ensures FirstHome(types, edges, parentOf, x).None?
  {
    if FirstHome(types, edges, parentOf, x).Some? {
      var w := HomeIsVniParent(types, edges, parentOf, x);
    }
  }

  /** Above a VNI pass 2 changes nothing. */
  lemma {:induction false} SameAboveVni(data: Topology, v: string, n: nat)
    requires var types, p1 := ResolvedTypes(data.nodes), StructuralHierarchy(data).parentOf;
             NoFloatingIpAboveVni(types, p1) && v in types && types[v] == VNI && Attached(p1, v)
    ensures Up(FullHierarchy(data).parentOf, v, n) == Up(StructuralHierarchy(data).parentOf, v, n)
  {
    var types, p1 := ResolvedTypes(data.nodes), StructuralHierarchy(data).parentOf;
    if n > 0 {
      SameAboveVni(data, v, n - 1);
      var y := Up(p1, v, n - 1);
      if y.Some? {
        HierarchyMeaning(data, "", y.value);
        if y.value !in p1 {
          NoHomeAboveVni(types, data.edges, p1, v, n - 1, y.value);
        }
      }
    }
  }

  lemma {:induction false} RootedAfterPass2(data: Topology, x: string, n: nat)
    requires NoFloatingIpAboveVni(ResolvedTypes(data.nodes), StructuralHierarchy(data).parentOf)
    requires Forest(StructuralHierarchy(data).parentOf)
    requires Up(StructuralHierarchy(data).parentOf, x, n).None?
    ensures Rooted(FullHierarchy(data).parentOf, x)
    decreases n
  {
    var types, p1, p2 := ResolvedTypes(data.nodes), StructuralHierarchy(data).parentOf, FullHierarchy(data).parentOf;
    HierarchyMeaning(data, "", x);
    RootedStep(p2, x);
    if x in p1 {
      UpAdd(p1, x, 1, n - 1);
      assert Up(p1, x, 0) == Some(x) && Up(p1, x, 1) == Some(p1[x]);
      RootedAfterPass2(data, p1[x], n - 1);
    } else if FirstHome(types, data.edges, p1, x).Some? {
      var v := HomeIsVniParent(types, data.edges, p1, x);
      assert Rooted(p1, v);
      var k: nat :| Up(p1, v, k).None?;
      SameAboveVni(data, v, k);
      HierarchyMeaning(data, "", v);
      RootedStep(p2, v);
    }
  }

  /** Co-location keeps a forest a forest. */
  lemma ForestKept(data: Topology)
    requires Forest(StructuralHierarchy(data).parentOf)
    requires NoFloatingIpAboveVni(ResolvedTypes(data.nodes), StructuralHierarchy(data).parentOf)
    ensures Forest(FullHierarchy(data).parentOf)
  {
    forall x
      ensures Rooted(FullHierarchy(data).parentOf, x)
    {
      assert Rooted(StructuralHierarchy(data).parentOf, x);
      var n: nat :| Up(StructuralHierarchy(data).parentOf, x, n).None?;
      RootedAfterPass2(data, x, n);
    }
  }

  /** The usual case: when no structural edge starts at a floating IP the condition holds. */
  lemma {:induction false} NoFloatingIpSource(data: Topology)
    requires var types := ResolvedTypes(data.nodes);
             forall e :: e in data.edges && Groups(types, e) ==> types[e.source] != FLOATING_IP
    ensures NoFloatingIpAboveVni(ResolvedTypes(data.nodes), StructuralHierarchy(data).parentOf)
  {
    var types, p1 := ResolvedTypes(data.nodes), StructuralHierarchy(data).parentOf;
    forall f, v, n: nat | f in types && types[f] == FLOATING_IP && v in types && types[v] == VNI
      ensures Up(p1, v, n) != Some(f)
    {
      if n > 0 && Up(p1, v, n) == Some(f) {
        var c := Up(p1, v, n - 1).value;
        HierarchyMeaning(data, f, c);
        LastSourceIsGroupEdge(types, data.edges, c);
      }
    }
  }

  ghost predicate AllVisible(edges: seq<Edge>) {
    forall e :: e in edges ==> !Structural(e)
  }

  lemma {:induction false} Pass1Ignores(types: map<string, string>, a: seq<Edge>, visible: seq<Edge>, h: Hierarchy)
    requires AllVisible(visible)
    ensures Pass1(types, a + visible, h) == Pass1(types, a, h)
    decreases |a| + |visible|
  {
    if a != [] {
      assert (a + visible)[1..] == a[1..] + visible;
      Pass1Ignores(types, a[1..], visible, if Groups(types, a[0]) then AddChild(h, a[0].source, a[0].target) else h);
    } else if visible != [] {
      assert a + visible == visible && visible == [visible[0]] + visible[1..] && a + visible[1..] == visible[1..];
      Pass1Ignores(types, a, visible[1..], h);
    }
  }

  /** The exact condition: over a structural forest, every set of visible edges yields a forest
      if and only if no parentless floating IP is above an attached VNI. */
  lemma ForestForAllVisibleEdges(nodes: seq<Node>, structural: seq<Edge>)
    requires Forest(StructuralHierarchy(Topology(nodes, structural)).parentOf)
    requires forall e :: e in structural ==> Structural(e)
    ensures (forall visible :: AllVisible(visible) ==>
                                 Forest(FullHierarchy(Topology(nodes, structural + visible)).parentOf))
            <==> NoFloatingIpAboveVni(ResolvedTypes(nodes), StructuralHierarchy(Topology(nodes, structural)).parentOf)
  {
    var types, p1 := ResolvedTypes(nodes), StructuralHierarchy(Topology(nodes, structural)).parentOf;
    if NoFloatingIpAboveVni(types, p1) {
      forall visible | AllVisible(visible)
        ensures Forest(FullHierarchy(Topology(nodes, structural + visible)).parentOf)
      {
        Pass1Ignores(types, structural, visible, NO_HIERARCHY);
        ForestKept(Topology(nodes, structural + visible));
      }
    } else {
      var f, v, n: nat :|
        (&& f in types && types[f] == FLOATING_IP && f !in p1
         && v in types && types[v] == VNI && Attached(p1, v)) && Up(p1, v, n) == Some(f);
      LoopFromFloatingIp(nodes, structural, f, v, n);
    }
  }

  /** A floating IP above a VNI it targets becomes its own ancestor. */
  lemma LoopFromFloatingIp(nodes: seq<Node>, structural: seq<Edge>, f: string, v: string, n: nat)
    requires forall e :: e in structural ==> Structural(e)
    requires var types, p1 := ResolvedTypes(nodes), StructuralHierarchy(Topology(nodes, structural)).parentOf;
             && f in types && types[f] == FLOATING_IP && f !in p1
             && v in types && types[v] == VNI && Attached(p1, v) && Up(p1, v, n) == Some(f)
    ensures var visible := [Edge("", f, v, Some(TARGETS))];
            AllVisible(visible) && !Forest(FullHierarchy(Topology(nodes, structural + visible)).parentOf)
  {
    var types, p1 := ResolvedTypes(nodes), StructuralHierarchy(Topology(nodes, structural)).parentOf;
    var visible := [Edge("", f, v, Some(TARGETS))];
    var data := Topology(nodes, structural + visible);
    var p2 := FullHierarchy(data).parentOf;
    Pass1Ignores(types, structural, visible, NO_HIERARCHY);
    assert StructuralHierarchy(data).parentOf == p1;
    SkipStructural(types, structural, visible, p1, f);
    HierarchyMeaning(data, "", f);
    assert Parent(p2, f) == Some(p1[v]);
    UpKept(data, v, n);
    HierarchyMeaning(data, "", v);
    SharedParentLoop(p2, f, v, n);
  }

  /** When `f` is above `v` and both have the same parent, `f` is above itself. */
  lemma SharedParentLoop(parentOf: map<string, string>, f: string, v: string, n: nat)
    requires f != v && Up(parentOf, v, n) == Some(f)
    requires v in parentOf && Parent(parentOf, f) == Parent(parentOf, v)
    ensures !Forest(parentOf)
  {
    assert n >= 1;
    assert Up(parentOf, v, 0) == Some(v) && Up(parentOf, v, 1) == Some(parentOf[v]);
    UpAdd(parentOf, v, 1, n - 1);
    assert Up(parentOf, f, 0) == Some(f) && Up(parentOf, f, 1) == Some(parentOf[v]);
    UpAdd(parentOf, f, 1, n - 1);
    if Forest(parentOf) {
      ForestHasNoCycle(parentOf, f, n);
    }
  }

  lemma {:induction false} SkipStructural(types: map<string, string>, structural: seq<Edge>, visible: seq<Edge>,
                                          parentOf: map<string, string>, f: string)
    requires forall e :: e in structural ==> Structural(e)
    ensures FirstHome(types, structural + visible, parentOf, f) == FirstHome(types, visible, parentOf, f)
  {
    if structural == [] {
      assert structural + visible == visible;
    } else {
      assert (structural + visible)[1..] == structural[1..] + visible;
      assert structural[0] in structural;
      SkipStructural(types, structural[1..], visible, parentOf, f);
    }
  }

  /** Ancestors of pass 1 are kept by pass 2. */
  lemma {:induction false} UpKept(data: Topology, x: string, n: nat)
    requires Up(StructuralHierarchy(data).parentOf, x, n).Some?
    ensures Up(FullHierarchy(data).parentOf, x, n) == Up(StructuralHierarchy(data).parentOf, x, n)
  {
    if n > 0 {
      UpKept(data, x, n - 1);
      HierarchyMeaning(data, "", Up(StructuralHierarchy(data).parentOf, x, n - 1).value);
    }
  }

  // ---- the exact condition for one drawing ----

  /** The node reached from `x` after at most `n` levels. */
  function Climb(parentOf: map<string, string>, x: string, n: nat): string
    decreases n
  {
    if n == 0 || x !in parentOf then x else Climb(parentOf, parentOf[x], n - 1)
  }

  lemma {:induction false} ClimbMeaning(parentOf: map<string, string>, x: string, n: nat)
    returns (k: nat)
    requires Up(parentOf, x, n).None?
    ensures Climb(parentOf, x, n) !in parentOf && Up(parentOf, x, k) == Some(Climb(parentOf, x, n))
    decreases n
  {
    k := 0;
    assert Up(parentOf, x, 0) == Some(x);
    if x in parentOf {
      assert Up(parentOf, x, 1) == Some(parentOf[x]);
      UpAdd(parentOf, x, 1, n - 1);
      k := ClimbMeaning(parentOf, parentOf[x], n - 1);
      UpAdd(parentOf, x, 1, k);
      k := k + 1;
    }
  }

  /** The root above `x`. */
  ghost function RootOf(parentOf: map<string, string>, x: string): string
    requires Rooted(parentOf, x)
  {
    var n: nat :| Up(parentOf, x, n).None?;
    Climb(parentOf, x, n)
  }

  lemma RootMeaning(parentOf: map<string, string>, x: string)
    returns (k: nat)
    requires Rooted(parentOf, x)
    ensures RootOf(parentOf, x) !in parentOf && Up(parentOf, x, k) == Some(RootOf(parentOf, x))
  {
    var n: nat :| Up(parentOf, x, n).None? && RootOf(parentOf, x) == Climb(parentOf, x, n);
    k := ClimbMeaning(parentOf, x, n);
  }

  /** Which tree of pass 1 each co-located floating IP is hung into, tree by tree. */
  ghost function RootLinks(data: Topology): map<string, string>
    requires Forest(StructuralHierarchy(data).parentOf)
  {
    var types, p1 := ResolvedTypes(data.nodes), StructuralHierarchy(data).parentOf;
    map f | f in types && f !in p1 && FirstHome(types, data.edges, p1, f).Some?
      :: RootOf(p1, FirstHome(types, data.edges, p1, f).value)
  }

  lemma RootedAlong(parentOf: map<string, string>, x: string, k: nat, r: string)
    requires Up(parentOf, x, k) == Some(r)
    ensures Rooted(parentOf, x) <==> Rooted(parentOf, r)
  {
    if n: nat :| Up(parentOf, x, n).None? {
      if n < k {
        UpStays(parentOf, x, n, k);
      } else {
        UpAdd(parentOf, x, k, n - k);
      }
    }
    if n: nat :| Up(parentOf, r, n).None? {
      UpAdd(parentOf, x, k, n);
    }
  }

  /** A floating IP that is a root of pass 1 and gets a home is linked to the root above it. */
  lemma LinkMeaning(data: Topology, f: string)
    returns (k: nat)
    requires Forest(StructuralHierarchy(data).parentOf) && f !in StructuralHierarchy(data).parentOf
    ensures var p2, links := FullHierarchy(data).parentOf, RootLinks(data);
            && (f in links <==> f in p2)
            && (f in links ==> links[f] !in StructuralHierarchy(data).parentOf
                               && Up(p2, p2[f], k) == Some(links[f]))
  {
    var types, p1 := ResolvedTypes(data.nodes), StructuralHierarchy(data).parentOf;
    HierarchyMeaning(data, "", f);
    k := 0;
    if FirstHome(types, data.edges, p1, f).Some? {
      var v := HomeIsVniParent(types, data.edges, p1, f);
      var home := FirstHome(types, data.edges, p1, f).value;
      assert Rooted(p1, home);
      k := RootMeaning(p1, home);
      UpKept(data, home, k);
    }
  }

  lemma OneUp(parentOf: map<string, string>, x: string, n: nat)
    requires x in parentOf && Up(parentOf, x, n).None?
    ensures n >= 1 && Up(parentOf, parentOf[x], n - 1).None?
  {
    assert Up(parentOf, x, 0) == Some(x) && Up(parentOf, x, 1) == Some(parentOf[x]);
    UpAdd(parentOf, x, 1, n - 1);
  }

  lemma {:induction false} LinksRooted(data: Topology, f: string, n: nat)
    requires Forest(StructuralHierarchy(data).parentOf) && f !in StructuralHierarchy(data).parentOf
    requires Up(FullHierarchy(data).parentOf, f, n).None?
    ensures Rooted(RootLinks(data), f)
    decreases n
  {
    var p2, links := FullHierarchy(data).parentOf, RootLinks(data);
    var k := LinkMeaning(data, f);
    if f in links {
      OneUp(p2, f, n);
      if n - 1 < k {
        UpStays(p2, p2[f], n - 1, k);
      }
      UpAdd(p2, p2[f], k, n - 1 - k);
      LinksRooted(data, links[f], n - 1 - k);
    }
    RootedStep(links, f);
  }

  lemma {:induction false} RootedFromLinks(data: Topology, f: string, n: nat)
    requires Forest(StructuralHierarchy(data).parentOf) && f !in StructuralHierarchy(data).parentOf
    requires Up(RootLinks(data), f, n).None?
    ensures Rooted(FullHierarchy(data).parentOf, f)
    decreases n
  {
    var p2, links := FullHierarchy(data).parentOf, RootLinks(data);
    var k := LinkMeaning(data, f);
    if f in links {
      OneUp(links, f, n);
      RootedFromLinks(data, links[f], n - 1);
      RootedAlong(p2, p2[f], k, links[f]);
    }
    RootedStep(p2, f);
  }

  /** Pass 2 breaks no loop. */
  lemma StructuralForest(data: Topology)
    requires Forest(FullHierarchy(data).parentOf)
    ensures Forest(StructuralHierarchy(data).parentOf)
  {
    var p1, p2 := StructuralHierarchy(data).parentOf, FullHierarchy(data).parentOf;
    forall x
      ensures Rooted(p1, x)
    {
      assert Rooted(p2, x);
      var n: nat :| Up(p2, x, n).None?;
      if Up(p1, x, n).Some? {
        UpKept(data, x, n);
      }
    }
  }

  /** The exact condition for one list of edges: the result is a forest if and only if pass 1 leaves a
      forest and the links between its trees form no cycle. */
  lemma ForestIffLinks(data: Topology)
    ensures Forest(FullHierarchy(data).parentOf) <==>
            Forest(StructuralHierarchy(data).parentOf) && Forest(RootLinks(data))
  {
    if Forest(FullHierarchy(data).parentOf) {
      StructuralForest(data);
    }
    if Forest(StructuralHierarchy(data).parentOf) {
      LinksDecide(data);
    }
  }

  lemma LinksDecide(data: Topology)
    requires Forest(StructuralHierarchy(data).parentOf)
    ensures Forest(FullHierarchy(data).parentOf) <==> Forest(RootLinks(data))
  {
    var p1, p2, links := StructuralHierarchy(data).parentOf, FullHierarchy(data).parentOf, RootLinks(data);
    if Forest(p2) {
      forall x
        ensures Rooted(links, x)
      {
        RootedStep(links, x);
        if x in links {
          assert Rooted(p2, x);
          var n: nat :| Up(p2, x, n).None?;
          LinksRooted(data, x, n);
        }
      }
    }
    if Forest(links) {
      forall x
        ensures Rooted(p2, x)
      {
        assert Rooted(p1, x);
        var k := RootMeaning(p1, x);
        var r := RootOf(p1, x);
        UpKept(data, x, k);
        assert Rooted(links, r);
        var n: nat :| Up(links, r, n).None?;
        RootedFromLinks(data, r, n);
        RootedAlong(p2, x, k, r);
      }
    }
  }

  // ---- edges and their order ----

  function StructuralEdges(edges: seq<Edge>): seq<Edge> {
    if edges == [] then [] else (if Structural(edges[0]) then [edges[0]] else []) + StructuralEdges(edges[1..])
  }

  function OtherEdges(edges: seq<Edge>): seq<Edge> {
    if edges == [] then [] else (if Structural(edges[0]) then [] else [edges[0]]) + OtherEdges(edges[1..])
  }

  lemma {:induction false} PassesSeparate(types: map<string, string>, edges: seq<Edge>, h: Hierarchy)
    ensures Pass1(types, edges, h) == Pass1(types, StructuralEdges(edges), h)
    ensures Pass2(types, edges, h) == Pass2(types, OtherEdges(edges), h)
    ensures VisibleEdges(types, edges) == VisibleEdges(types, OtherEdges(edges))
    decreases |edges|
  {
    if edges != [] {
      var e := edges[0];
      PassesSeparate(types, edges[1..], h);
      PassesSeparate(types, edges[1..], if Groups(types, e) then AddChild(h, e.source, e.target) else h);
      PassesSeparate(types, edges[1..], Colocate(types, h, e));
      if Structural(e) {
        assert StructuralEdges(edges)[1..] == StructuralEdges(edges[1..]);
        assert OtherEdges(edges) == OtherEdges(edges[1..]);
      } else {
        assert OtherEdges(edges)[1..] == OtherEdges(edges[1..]);
        assert StructuralEdges(edges) == StructuralEdges(edges[1..]);
      }
    }
  }

  /** How structural and other edges are interleaved makes no difference to the drawing. */
  lemma InterleavingIrrelevant(nodes: seq<Node>, edges1: seq<Edge>, edges2: seq<Edge>)
    requires StructuralEdges(edges1) == StructuralEdges(edges2) && OtherEdges(edges1) == OtherEdges(edges2)
    ensures Transform(Topology(nodes, edges1)) == Transform(Topology(nodes, edges2))
  {
    var types := ResolvedTypes(nodes);
    PassesSeparate(types, edges1, NO_HIERARCHY);
    PassesSeparate(types, edges2, NO_HIERARCHY);
    PassesSeparate(types, edges1, StructuralHierarchy(Topology(nodes, edges1)));
    PassesSeparate(types, edges2, StructuralHierarchy(Topology(nodes, edges1)));
  }

  lemma {:induction false} VisibleConcat(types: map<string, string>, a: seq<Edge>, b: seq<Edge>)
    ensures VisibleEdges(types, a + b) == VisibleEdges(types, a) + VisibleEdges(types, b)
  {
    if a == [] {
      assert a + b == b;
    } else {
      assert (a + b)[1..] == a[1..] + b;
      VisibleConcat(types, a[1..], b);
    }
  }

  /** Every edge between known nodes that is not structural is drawn once, at the position given by
      the number of edges drawn before it, with its own id, source and target, and as a "targets" edge
      when it has no type; every other edge is not drawn. */
  lemma VisibleOnceInOrder(types: map<string, string>, edges: seq<Edge>, i: nat)
    requires i < |edges|
    ensures var e, before, upTo := edges[i], VisibleEdges(types, edges[..i]), VisibleEdges(types, edges[..i + 1]);
            && before <= upTo <= VisibleEdges(types, edges)
            && if e.typ != Some("contains") && e.typ != Some("connected") && e.source in types && e.target in types
               then && |upTo| == |before| + 1
                    && upTo[|before|].id == e.id
                    && upTo[|before|].source == e.source && upTo[|before|].target == e.target
                    && upTo[|before|].edgeType == (if e.typ.Some? then e.typ.value else "targets")
               else upTo == before
  {
    assert edges == edges[..i + 1] + edges[i + 1..] && edges[..i + 1] == edges[..i] + [edges[i]];
    VisibleConcat(types, edges[..i + 1], edges[i + 1..]);
    VisibleConcat(types, edges[..i], [edges[i]]);
    assert [edges[i]][1..] == [];
  }

  /** The drawn type of an id is that of its last node: "cudn" or "udn" when the details say so, and
      otherwise the type received. */
  lemma TypeMeaning(nodes: seq<Node>, i: nat)
    requires i < |nodes| && forall j :: i < j < |nodes| ==> nodes[j].id != nodes[i].id
    ensures nodes[i].id in ResolvedTypes(nodes)
    ensures var n := nodes[i];
            ResolvedTypes(nodes)[n.id]
            == if n.details.Some? && "resource_type" in n.details.value && n.details.value["resource_type"] == "cudn"
               then "cudn"
               else if n.details.Some? && "resource_type" in n.details.value && n.details.value["resource_type"] == "udn"
               then "udn"
               else n.typ
  {
    LastDecides(nodes, i);
    NormalizeMeaning(nodes[i]);
  }

  lemma {:induction false} LastDecides(nodes: seq<Node>, i: nat)
    requires i < |nodes| && forall j :: i < j < |nodes| ==> nodes[j].id != nodes[i].id
    ensures nodes[i].id in ResolvedTypes(nodes) && ResolvedTypes(nodes)[nodes[i].id] == NormalizeNodeType(nodes[i])
  {
    if i < |nodes| - 1 {
      LastDecides(nodes[..|nodes| - 1], i);
    }
  }

  lemma NormalizeMeaning(n: Node)
    ensures NormalizeNodeType(n)
            == if n.details.Some? && "resource_type" in n.details.value && n.details.value["resource_type"] == "cudn"
               then "cudn"
               else if n.details.Some? && "resource_type" in n.details.value && n.details.value["resource_type"] == "udn"
               then "udn"
               else n.typ
  {}

  /** One model per node, in order, with the node's own data; a group's children are exactly the
      hierarchy's children of it, each once. */
  lemma ModelPerNode(data: Topology, i: nat)
    requires i < |data.nodes|
    ensures |Transform(data).nodes| == |data.nodes|
    ensures var m, n := Transform(data).nodes[i], data.nodes[i];
            && m.id == n.id && m.caption == n.name && m.resourceId == n.resourceId && m.details == n.details
            && m.nodeType == ResolvedTypes(data.nodes)[n.id]
            && m.typ == m.nodeType + (if m.group then "-group" else "")
            && (m.status == Some(Success) <==> n.status == Some("available"))
            && (m.status == Some(Danger) <==> n.status == Some("error"))
            && (m.status == Some(Warning) <==> n.status == Some("pending"))
            && (m.group <==> (m.nodeType == "vpc" || m.nodeType == "subnet")
                             && exists c :: c in Children(FullHierarchy(data), m.id))
            && (m.group <==> m.children.Some?)
            && (m.group ==> NoDuplicates(m.children.value)
                            && forall c :: c in m.children.value <==> c in Children(FullHierarchy(data), m.id))
  {
    var m, n := Transform(data).nodes[i], data.nodes[i];
    var kids := Children(FullHierarchy(data), n.id);
    if kids != [] {
      assert kids[0] in kids;
    }
    ChildrenOnce(data, n.id);
    assert m.nodeType + "" == m.nodeType;
  }

  // ---- the order of children ----

  /** Adding edges keeps the children that are there in front, each once. */
  lemma {:induction false} ChildrenGrow(types: map<string, string>, edges: seq<Edge>, h: Hierarchy, p: string)
    ensures Children(h, p) <= Children(Pass1(types, edges, h), p)
    ensures Children(h, p) <= Children(Pass2(types, edges, h), p)
    ensures NoDuplicates(Children(h, p)) ==>
              && NoDuplicates(Children(Pass1(types, edges, h), p))
              && NoDuplicates(Children(Pass2(types, edges, h), p))
    decreases |edges|
  {
    if edges != [] {
      var e := edges[0];
      var h1, h2 := if Groups(types, e) then AddChild(h, e.source, e.target) else h, Colocate(types, h, e);
      ChildrenGrow(types, edges[1..], h1, p);
      ChildrenGrow(types, edges[1..], h2, p);
    }
  }

  lemma ChildrenOnce(data: Topology, p: string)
    ensures NoDuplicates(Children(FullHierarchy(data), p))
    ensures Children(StructuralHierarchy(data), p) <= Children(FullHierarchy(data), p)
  {
    ChildrenGrow(ResolvedTypes(data.nodes), data.edges, NO_HIERARCHY, p);
    ChildrenGrow(ResolvedTypes(data.nodes), data.edges, StructuralHierarchy(data), p);
  }

  lemma {:induction false} Pass1Concat(types: map<string, string>, a: seq<Edge>, b: seq<Edge>, h: Hierarchy)
    ensures Pass1(types, a + b, h) == Pass1(types, b, Pass1(types, a, h))
    ensures Pass2(types, a + b, h) == Pass2(types, b, Pass2(types, a, h))
    decreases |a|
  {
    if a == [] {
      assert a + b == b;
    } else {
      assert (a + b)[0] == a[0] && (a + b)[1..] == a[1..] + b;
      Pass1Concat(types, a[1..], b, if Groups(types, a[0]) then AddChild(h, a[0].source, a[0].target) else h);
      Pass1Concat(types, a[1..], b, Colocate(types, h, a[0]));
    }
  }

  /** Children are listed in the order of the edges that add them: those that the first `i` edges
      give come first, and those of structural edges before co-located ones. */
  lemma ChildrenInOrder(data: Topology, i: nat, p: string)
    requires i <= |data.edges|
    ensures var types, h := ResolvedTypes(data.nodes), StructuralHierarchy(data);
            && Children(Pass1(types, data.edges[..i], NO_HIERARCHY), p) <= Children(h, p)
            && Children(h, p) <= Children(Pass2(types, data.edges[..i], h), p) <= Children(FullHierarchy(data), p)
  {
    var types, h, a, b := ResolvedTypes(data.nodes), StructuralHierarchy(data), data.edges[..i], data.edges[i..];
    assert data.edges == a + b;
    Pass1Concat(types, a, b, NO_HIERARCHY);
    Pass1Concat(types, a, b, h);
    ChildrenGrow(types, b, Pass1(types, a, NO_HIERARCHY), p);
    ChildrenGrow(types, a, h, p);
    ChildrenGrow(types, b, Pass2(types, a, h), p);
  }
}
