/** The topology the console receives, as far as its graph code reads it. */
module TopologyData {
  import opened Text

  datatype Node = Node(id: string, name: string, typ: string, status: Option<string>,
                       resourceId: Option<string>, details: Option<map<string, string>>)

  datatype Edge = Edge(id: string, source: string, target: string, typ: Option<string>)

  datatype Topology = Topology(nodes: seq<Node>, edges: seq<Edge>)

  /** Elements of `s` with `x` added at the end, as JavaScript's `Set.add` keeps them. */
  function AddUnique(s: seq<string>, x: string): (r: seq<string>)
    ensures s <= r && forall y :: y in r <==> y in s || y == x
    ensures NoDuplicates(s) ==> NoDuplicates(r)
  {
    if x in s then s else s + [x]
  }

  predicate NoDuplicates(s: seq<string>) {
    forall i, j :: 0 <= i < j < |s| ==> s[i] != s[j]
  }
}
