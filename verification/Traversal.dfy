/** `getConnectedNodes`: a breadth-first search whose queue may hold a node many times and
    that marks a node only when it leaves the queue. */
module Traversal {
  import opened TopologyData

  datatype Direction = Outbound | Inbound | Both

  /** The neighbours a visit of `v` pushes, in order. */
  function Neighbours(edges: seq<Edge>, dir: Direction, v: string): seq<string> {
    (if dir.Inbound? then [] else Targets(edges, v)) + (if dir.Outbound? then [] else Sources(edges, v))
  }

  function Targets(edges: seq<Edge>, v: string): seq<string> {
    if edges == [] then []
    else (if edges[0].source == v then [edges[0].target] else []) + Targets(edges[1..], v)
  }

  function Sources(edges: seq<Edge>, v: string): seq<string> {
    if edges == [] then []
    else (if edges[0].target == v then [edges[0].source] else []) + Sources(edges[1..], v)
  }

  lemma {:induction false} TargetsMeaning(edges: seq<Edge>, v: string, w: string)
    ensures w in Targets(edges, v) <==> exists e :: e in edges && e.source == v && e.target == w
    ensures w in Sources(edges, v) <==> exists e :: e in edges && e.target == v && e.source == w
  {
    if edges != [] {
      TargetsMeaning(edges[1..], v, w);
      assert edges == [edges[0]] + edges[1..];
    }
  }

  /** Edges are followed from source to target unless the direction is inbound, and from target to
      source unless it is outbound. */
  ghost predicate Linked(edges: seq<Edge>, dir: Direction, v: string, w: string) {
    exists e :: e in edges &&
                (|| (dir != Inbound && e.source == v && e.target == w)
                 || (dir != Outbound && e.target == v && e.source == w))
  }

  /** A visit pushes exactly what is linked. */
  lemma NeighboursMeaning(edges: seq<Edge>, dir: Direction, v: string, w: string)
    ensures w in Neighbours(edges, dir, v) <==> Linked(edges, dir, v, w)
  {
    TargetsMeaning(edges, v, w);
  }

  lemma {:induction false} TargetsGrow(edges: seq<Edge>, e: Edge, v: string)
    ensures Targets(edges + [e], v) == Targets(edges, v) + if e.source == v then [e.target] else []
  {
    var all, here := edges + [e], if edges != [] && edges[0].source == v then [edges[0].target] else [];
    if edges == [] {
      assert all == [e] && [e][1..] == [];
    } else {
      TargetsGrow(edges[1..], e, v);
      assert all[0] == edges[0] && all[1..] == edges[1..] + [e];
      assert Targets(all, v) == here + Targets(edges[1..] + [e], v);
    }
  }

  lemma {:induction false} SourcesGrow(edges: seq<Edge>, e: Edge, v: string)
    ensures Sources(edges + [e], v) == Sources(edges, v) + if e.target == v then [e.source] else []
  {
    var all, here := edges + [e], if edges != [] && edges[0].target == v then [edges[0].source] else [];
    if edges == [] {
      assert all == [e] && [e][1..] == [];
    } else {
      SourcesGrow(edges[1..], e, v);
      assert all[0] == edges[0] && all[1..] == edges[1..] + [e];
      assert Sources(all, v) == here + Sources(edges[1..] + [e], v);
    }
  }

  lemma OneDirection(edges: seq<Edge>, v: string)
    ensures Neighbours(edges, Outbound, v) == Targets(edges, v) && Neighbours(edges, Inbound, v) == Sources(edges, v)
  {
    assert Targets(edges, v) + [] == Targets(edges, v) && [] + Sources(edges, v) == Sources(edges, v);
  }

  /** In what order and how often: once for each edge at the node, in the order of the edges, and
      when both directions are followed targets before sources. */
  lemma PushOrder(edges: seq<Edge>, e: Edge, v: string)
    ensures Neighbours([], Outbound, v) == Neighbours([], Inbound, v) == []
    ensures Neighbours(edges + [e], Outbound, v)
            == Neighbours(edges, Outbound, v) + if e.source == v then [e.target] else []
    ensures Neighbours(edges + [e], Inbound, v)
            == Neighbours(edges, Inbound, v) + if e.target == v then [e.source] else []
    ensures Neighbours(edges, Both, v) == Neighbours(edges, Outbound, v) + Neighbours(edges, Inbound, v)
  {
    OneDirection([], v);
    OneDirection(edges, v);
    OneDirection(edges + [e], v);
    TargetsGrow(edges, e, v);
    SourcesGrow(edges, e, v);
  }

  lemma LinkedReversed(edges: seq<Edge>, dir: Direction, v: string, w: string)
    ensures Linked(edges, dir, v, w) <==> Linked(edges, Reverse(dir), w, v)
  {}

  lemma NeighboursAreEndpoints(edges: seq<Edge>, dir: Direction, v: string, start: string)
    ensures forall w :: w in Neighbours(edges, dir, v) ==> w in Endpoints(edges, start)
  {
    forall w | w in Neighbours(edges, dir, v)
      ensures w in Endpoints(edges, start)
    {
      TargetsMeaning(edges, v, w);
    }
  }

  // ---- reference: walks ----

  /** Consecutive nodes are linked; the empty id is never walked through. */
  ghost predicate IsPath(edges: seq<Edge>, dir: Direction, path: seq<string>) {
    forall i :: 0 <= i < |path| - 1 ==> path[i] != "" && Linked(edges, dir, path[i], path[i + 1])
  }

  ghost predicate Joins(path: seq<string>, u: string, n: nat, v: string) {
    |path| == n + 1 && path[0] == u && path[n] == v
  }

  /** A walk of `n` edges leads from `u` to `v`. */
  ghost predicate Walk(edges: seq<Edge>, dir: Direction, u: string, n: nat, v: string) {
    exists path :: Joins(path, u, n, v) && IsPath(edges, dir, path)
  }

  lemma NoStep(edges: seq<Edge>, dir: Direction, u: string)
    ensures Walk(edges, dir, u, 0, u)
  {
    assert Joins([u], u, 0, u) && IsPath(edges, dir, [u]);
  }

  lemma Append(edges: seq<Edge>, dir: Direction, u: string, m: nat, v: string, n: nat, w: string)
    requires v != "" && Walk(edges, dir, u, m, v) && Walk(edges, dir, v, n, w)
    ensures Walk(edges, dir, u, m + n, w)
  {
    var p :| Joins(p, u, m, v) && IsPath(edges, dir, p);
    var q :| Joins(q, v, n, w) && IsPath(edges, dir, q);
    var r := p + q[1..];
    assert forall i :: m <= i <= m + n ==> r[i] == q[i - m];
    assert Joins(r, u, m + n, w) && IsPath(edges, dir, r);
  }

  lemma OneMore(edges: seq<Edge>, dir: Direction, u: string, n: nat, v: string, w: string)
    requires v != "" && Walk(edges, dir, u, n, v) && Linked(edges, dir, v, w)
    ensures Walk(edges, dir, u, n + 1, w)
  {
    var p :| Joins(p, u, n, v) && IsPath(edges, dir, p);
    assert Joins(p + [w], u, n + 1, w) && IsPath(edges, dir, p + [w]);
  }

  lemma LastEdge(edges: seq<Edge>, dir: Direction, u: string, n: nat, v: string)
    returns (p: string)
    requires n >= 1 && Walk(edges, dir, u, n, v)
    ensures Walk(edges, dir, u, n - 1, p) && p != "" && Linked(edges, dir, p, v)
  {
    var path :| Joins(path, u, n, v) && IsPath(edges, dir, path);
    p := path[n - 1];
    assert Joins(path[..n], u, n - 1, p) && IsPath(edges, dir, path[..n]);
  }

  ghost predicate Connected(edges: seq<Edge>, dir: Direction, u: string, v: string) {
    exists n :: n >= 1 && Walk(edges, dir, u, n, v)
  }

  /** Number of edges of a shortest non-empty walk. */
  ghost predicate IsDistance(edges: seq<Edge>, dir: Direction, u: string, v: string, n: nat) {
    && n >= 1 && Walk(edges, dir, u, n, v)
    && forall m :: 1 <= m < n ==> !Walk(edges, dir, u, m, v)
  }

  /** Every connected node has a distance, so ordering by distance leaves none out. */
  lemma DistanceExists(edges: seq<Edge>, dir: Direction, u: string, v: string)
    returns (n: nat)
    requires Connected(edges, dir, u, v)
    ensures IsDistance(edges, dir, u, v, n)
  {
    n :| n >= 1 && Walk(edges, dir, u, n, v);
    while exists m :: 1 <= m < n && Walk(edges, dir, u, m, v)
      invariant n >= 1 && Walk(edges, dir, u, n, v)
      decreases n
    {
      var m :| 1 <= m < n && Walk(edges, dir, u, m, v);
      n := m;
    }
  }

  // ---- the search ----

  /** Adds each of `found` to the result set and to the queue. */
  method Push(found: seq<string>, connected: seq<string>, queue: seq<string>)
    returns (connected': seq<string>, queue': seq<string>)
    ensures queue' == queue + found
    ensures connected <= connected' && (NoDuplicates(connected) ==> NoDuplicates(connected'))
    ensures forall w :: w in connected' <==> w in connected || w in found
  {
    connected', queue' := connected, queue;
    for i := 0 to |found|
      invariant queue' == queue + found[..i]
      invariant connected <= connected' && (NoDuplicates(connected) ==> NoDuplicates(connected'))
      invariant forall w :: w in connected' <==> w in connected || w in found[..i]
    {
      connected' := AddUnique(connected', found[i]);
      queue' := queue' + [found[i]];
    }
    assert found[..|found|] == found;
  }

  /** Pushes the neighbours of `current`: targets before sources when both are followed. */
  method Expand(edges: seq<Edge>, dir: Direction, current: string, connected: seq<string>, queue: seq<string>)
    returns (connected': seq<string>, queue': seq<string>)
    ensures queue' == queue + Neighbours(edges, dir, current)
    ensures connected <= connected' && (NoDuplicates(connected) ==> NoDuplicates(connected'))
    ensures forall w :: w in connected' <==> w in connected || w in Neighbours(edges, dir, current)
    ensures forall w :: w in connected' <==> w in connected || Linked(edges, dir, current, w)
  {
    connected', queue' := connected, queue;
    forall w
      ensures w in Neighbours(edges, dir, current) <==> Linked(edges, dir, current, w)
    {
      NeighboursMeaning(edges, dir, current, w);
    }
    if dir.Outbound? || dir.Both? {
      connected', queue' := Push(Targets(edges, current), connected', queue');
    }
    if dir.Inbound? || dir.Both? {
      connected', queue' := Push(Sources(edges, current), connected', queue');
    }
    assert queue + (Targets(edges, current) + Sources(edges, current))
           == queue + Targets(edges, current) + Sources(edges, current);
  }

  ghost function Endpoints(edges: seq<Edge>, start: string): set<string> {
    {start} + (set e | e in edges :: e.source) + (set e | e in edges :: e.target)
  }

  /** The search with its labels: the `depth` of every node in the result, the `level` of every
      queue entry, and the level at which a node was visited. */
  datatype Search = Search(connected: seq<string>, depth: seq<nat>,
                                 queue: seq<string>, level: seq<nat>, visited: map<string, nat>)
  {
    ghost predicate Shaped() {
      |depth| == |connected| && |level| == |queue| && NoDuplicates(connected)
    }

    /** Labels are lengths of walks from the start. */
    ghost predicate Sound(edges: seq<Edge>, dir: Direction, start: string)
      requires Shaped()
    {
      && (forall i :: 0 <= i < |connected| ==> depth[i] >= 1 && Walk(edges, dir, start, depth[i], connected[i]))
      && (forall k :: 0 <= k < |queue| ==> Walk(edges, dir, start, level[k], queue[k]))
    }

    /** Labels do not decrease along the result and the queue; the queue spans two levels. */
    ghost predicate QueueLayered()
      requires Shaped()
    {
      && (forall k, m :: 0 <= k < m < |queue| ==> level[k] <= level[m] <= level[k] + 1)
      && (forall u, k :: u in visited && 0 <= k < |queue| ==> visited[u] <= level[k])
    }

    ghost predicate FoundLayered()
      requires Shaped()
    {
      && (forall i, j :: 0 <= i < j < |connected| ==> depth[i] <= depth[j])
      && (forall i, k :: 0 <= i < |connected| && 0 <= k < |queue| ==> depth[i] <= level[k] + 1)
    }

    ghost predicate Layered()
      requires Shaped()
    {
      QueueLayered() && FoundLayered()
    }

    /** `u` was visited at level `d` or earlier, or waits in the queue at such a level. */
    ghost predicate Handled(u: string, d: nat)
      requires Shaped()
    {
      (u in visited && visited[u] <= d) || exists k :: 0 <= k < |queue| && queue[k] == u && level[k] <= d
    }

    ghost predicate Reached(w: string, d: nat)
      requires Shaped()
    {
      exists i :: 0 <= i < |connected| && connected[i] == w && depth[i] <= d
    }

    /** Whatever was reached is handled in time, and so are the neighbours of visited nodes. */
    ghost predicate Covered(edges: seq<Edge>, dir: Direction, start: string)
      requires Shaped()
    {
      && (start == "" || Handled(start, 0))
      && (forall i :: 0 <= i < |connected| && connected[i] != "" ==> Handled(connected[i], depth[i]))
      && (forall u, w :: u in visited && w in Neighbours(edges, dir, u) ==> Reached(w, visited[u] + 1))
    }

    ghost predicate Valid(edges: seq<Edge>, dir: Direction, start: string) {
      Shaped() && Sound(edges, dir, start) && Layered() && Covered(edges, dir, start)
    }

    /** The first queue entry dropped. */
    ghost function Skipped(): Search
      requires Shaped() && queue != []
    {
      Search(connected, depth, queue[1..], level[1..], visited)
    }

    /** The first queue entry visited, its neighbours `found` and the result `connected'`. */
    ghost function Visited(found: seq<string>, connected': seq<string>): Search
      requires Shaped() && queue != [] && |connected| <= |connected'|
    {
      Search(connected', depth + seq(|connected'| - |connected|, _ => level[0] + 1),
             queue[1..] + found, level[1..] + seq(|found|, _ => level[0] + 1),
             visited[queue[0] := level[0]])
    }
  }

  /** A queue entry for the empty id or for a visited node can be dropped. */
  lemma Skip(edges: seq<Edge>, dir: Direction, start: string, s: Search)
    requires s.Valid(edges, dir, start)
    requires s.queue != [] && (s.queue[0] == "" || s.queue[0] in s.visited)
    ensures s.Skipped().Valid(edges, dir, start)
  {
    var t := s.Skipped();
    forall u, d | u != "" && s.Handled(u, d)
      ensures t.Handled(u, d)
    {
      if !(u in s.visited && s.visited[u] <= d) {
        var k :| 0 <= k < |s.queue| && s.queue[k] == u && s.level[k] <= d;
        assert k > 0;
        assert t.queue[k - 1] == u && t.level[k - 1] <= d;
      }
    }
    forall u, d | s.Reached(u, d)
      ensures t.Reached(u, d)
    {
      var i :| 0 <= i < |s.connected| && s.connected[i] == u && s.depth[i] <= d;
      assert t.connected[i] == u && t.depth[i] <= d;
    }
  }

  /** `s` visits its first queue entry and becomes `t`. */
  ghost predicate Visits(edges: seq<Edge>, dir: Direction, start: string, s: Search, t: Search) {
    && s.Valid(edges, dir, start)
    && s.queue != [] && s.queue[0] != "" && s.queue[0] !in s.visited
    && s.connected <= t.connected && NoDuplicates(t.connected)
    && (forall w :: w in t.connected <==> w in s.connected || w in Neighbours(edges, dir, s.queue[0]))
    && t == s.Visited(Neighbours(edges, dir, s.queue[0]), t.connected)
  }

  lemma NewlyConnected(edges: seq<Edge>, dir: Direction, start: string, s: Search, t: Search, i: nat)
    requires Visits(edges, dir, start, s, t) && |s.connected| <= i < |t.connected|
    ensures t.connected[i] in Neighbours(edges, dir, s.queue[0])
  {
    assert t.connected[i] in t.connected;
    assert forall j :: 0 <= j < |s.connected| ==> s.connected[j] == t.connected[j];
  }

  lemma VisitSound(edges: seq<Edge>, dir: Direction, start: string, s: Search, t: Search)
    requires Visits(edges, dir, start, s, t)
    ensures t.Sound(edges, dir, start)
  {
    var found := Neighbours(edges, dir, s.queue[0]);
    forall w | w in found
      ensures Walk(edges, dir, start, s.level[0] + 1, w)
    {
      NeighboursMeaning(edges, dir, s.queue[0], w);
      OneMore(edges, dir, start, s.level[0], s.queue[0], w);
    }
    forall i | |s.connected| <= i < |t.connected|
      ensures t.connected[i] in found
    {
      NewlyConnected(edges, dir, start, s, t, i);
    }
    forall k | |s.queue| - 1 <= k < |t.queue|
      ensures t.queue[k] in found && t.level[k] == s.level[0] + 1
    {}
  }

  /** The new queue holds the rest of the old one and then entries one level further. */
  lemma VisitLevels(edges: seq<Edge>, dir: Direction, start: string, s: Search, t: Search)
    requires Visits(edges, dir, start, s, t)
    ensures forall k :: 0 <= k < |s.queue| - 1 ==> t.level[k] == s.level[k + 1]
    ensures forall k :: |s.queue| - 1 <= k < |t.level| ==> t.level[k] == s.level[0] + 1
    ensures forall k :: 0 <= k < |t.level| ==> s.level[0] <= t.level[k] <= s.level[0] + 1
  {}

  lemma VisitQueueLayered(edges: seq<Edge>, dir: Direction, start: string, s: Search, t: Search)
    requires Visits(edges, dir, start, s, t)
    ensures t.QueueLayered()
  {
    VisitLevels(edges, dir, start, s, t);
  }

  lemma VisitFoundLayered(edges: seq<Edge>, dir: Direction, start: string, s: Search, t: Search)
    requires Visits(edges, dir, start, s, t)
    ensures t.FoundLayered()
  {
    VisitLevels(edges, dir, start, s, t);
  }

  lemma VisitHandled(edges: seq<Edge>, dir: Direction, start: string, s: Search, t: Search, u: string, d: nat)
    requires Visits(edges, dir, start, s, t) && s.Handled(u, d)
    ensures t.Handled(u, d)
  {
    if u !in s.visited || s.visited[u] > d {
      var k :| 0 <= k < |s.queue| && s.queue[k] == u && s.level[k] <= d;
      if k > 0 {
        assert t.queue[k - 1] == u && t.level[k - 1] <= d;
      }
    }
  }

  lemma VisitReached(edges: seq<Edge>, dir: Direction, start: string, s: Search, t: Search, u: string, w: string)
    requires Visits(edges, dir, start, s, t) && u in t.visited && w in Neighbours(edges, dir, u)
    ensures t.Reached(w, t.visited[u] + 1)
  {
    if u == s.queue[0] {
      assert w in t.connected;
      var i :| 0 <= i < |t.connected| && t.connected[i] == w;
      assert t.depth[i] <= s.level[0] + 1;
    } else {
      assert s.Reached(w, s.visited[u] + 1);
      var i :| 0 <= i < |s.connected| && s.connected[i] == w && s.depth[i] <= s.visited[u] + 1;
      assert t.connected[i] == w && t.depth[i] == s.depth[i];
    }
  }

  lemma Visit(edges: seq<Edge>, dir: Direction, start: string, s: Search, t: Search)
    requires Visits(edges, dir, start, s, t)
    ensures t.Valid(edges, dir, start)
  {
    VisitSound(edges, dir, start, s, t);
    VisitQueueLayered(edges, dir, start, s, t);
    VisitFoundLayered(edges, dir, start, s, t);
    if start != "" {
      VisitHandled(edges, dir, start, s, t, start, 0);
    }
    var found := Neighbours(edges, dir, s.queue[0]);
    forall i | 0 <= i < |t.connected| && t.connected[i] != ""
      ensures t.Handled(t.connected[i], t.depth[i])
    {
      if i < |s.connected| {
        VisitHandled(edges, dir, start, s, t, s.connected[i], s.depth[i]);
      } else {
        NewlyConnected(edges, dir, start, s, t, i);
        var m :| 0 <= m < |found| && found[m] == t.connected[i];
        assert t.queue[|s.queue| - 1 + m] == found[m] && t.level[|s.queue| - 1 + m] == s.level[0] + 1;
      }
    }
    forall u, w | u in t.visited && w in Neighbours(edges, dir, u)
      ensures t.Reached(w, t.visited[u] + 1)
    {
      VisitReached(edges, dir, start, s, t, u, w);
    }
  }

  lemma OneFewer(all: set<string>, visited: set<string>, v: string)
    requires v in all && v !in visited
    ensures |all - (visited + {v})| < |all - visited|
  {
    assert all - visited == (all - (visited + {v})) + {v};
  }

  lemma Begin(edges: seq<Edge>, dir: Direction, start: string)
    ensures Search([], [], [start], [0], map[]).Valid(edges, dir, start)
  {
    NoStep(edges, dir, start);
    var s := Search([], [], [start], [0], map[]);
    assert s.queue[0] == start && s.level[0] <= 0;
  }

  /** When the queue is empty every walk has ended in the result, with no larger label. */
  lemma {:induction false} Complete(edges: seq<Edge>, dir: Direction, start: string, s: Search, n: nat, v: string)
    requires s.Valid(edges, dir, start) && s.queue == []
    requires n >= 1 && Walk(edges, dir, start, n, v)
    ensures s.Reached(v, n)
  {
    var p := LastEdge(edges, dir, start, n, v);
    NeighboursMeaning(edges, dir, p, v);
    if n == 1 {
      assert p == start by { ZeroEdges(edges, dir, start, p); }
      assert s.Handled(start, 0);
    } else {
      Complete(edges, dir, start, s, n - 1, p);
      var i :| 0 <= i < |s.connected| && s.connected[i] == p && s.depth[i] <= n - 1;
      assert s.Handled(s.connected[i], s.depth[i]);
    }
    assert s.visited[p] + 1 <= n;
    assert s.Reached(v, s.visited[p] + 1);
  }

  lemma ZeroEdges(edges: seq<Edge>, dir: Direction, u: string, v: string)
    requires Walk(edges, dir, u, 0, v)
    ensures u == v
  {}

  lemma Found(edges: seq<Edge>, dir: Direction, start: string, s: Search)
    requires s.Valid(edges, dir, start) && s.queue == []
    ensures forall v :: v in s.connected <==> Connected(edges, dir, start, v)
    ensures NearestFirst(edges, dir, start, s.connected)
  {
    forall v
      ensures v in s.connected <==> Connected(edges, dir, start, v)
    {
      if v in s.connected {
        var i :| 0 <= i < |s.connected| && s.connected[i] == v;
        assert Walk(edges, dir, start, s.depth[i], v);
      }
      if Connected(edges, dir, start, v) {
        var n :| n >= 1 && Walk(edges, dir, start, n, v);
        Complete(edges, dir, start, s, n, v);
      }
    }
    forall i, n | 0 <= i < |s.connected| && IsDistance(edges, dir, start, s.connected[i], n)
      ensures s.depth[i] == n
    {
      Complete(edges, dir, start, s, n, s.connected[i]);
      var j :| 0 <= j < |s.connected| && s.connected[j] == s.connected[i] && s.depth[j] <= n;
      assert i == j;
    }
  }

  /** One visit: the node has left the queue, its neighbours join the result and the queue. */
  method VisitNode(edges: seq<Edge>, dir: Direction, current: string, connected: seq<string>, queue: seq<string>,
                   ghost start: string, ghost s: Search)
    returns (connected': seq<string>, queue': seq<string>, ghost s': Search)
    requires s.Valid(edges, dir, start) && s.connected == connected && s.queue != []
    requires s.queue[0] == current && s.queue[1..] == queue && current != "" && current !in s.visited
    ensures s'.Valid(edges, dir, start) && s'.connected == connected' && s'.queue == queue'
    ensures s'.visited.Keys == s.visited.Keys + {current}
    ensures forall v :: v in queue' ==> v in queue || v in Endpoints(edges, start)
  {
    NeighboursAreEndpoints(edges, dir, current, start);
    connected', queue' := Expand(edges, dir, current, connected, queue);
    s' := s.Visited(Neighbours(edges, dir, current), connected');
    Visit(edges, dir, start, s, s');
  }

  /** The nodes are listed in nondecreasing order of their distance. */
  ghost predicate NearestFirst(edges: seq<Edge>, dir: Direction, start: string, nodes: seq<string>) {
    forall i, j, m, n ::
      (&& 0 <= i < j < |nodes|
       && IsDistance(edges, dir, start, nodes[i], m)
       && IsDistance(edges, dir, start, nodes[j], n)) ==> m <= n
  }

  /** Every node that a non-empty walk from `nodeId` reaches, each once, nearest first. */
  method GetConnectedNodes(data: Topology, nodeId: string, direction: Direction) returns (connected: seq<string>)
    ensures NoDuplicates(connected)
    ensures forall v :: v in connected <==> Connected(data.edges, direction, nodeId, v)
    ensures NearestFirst(data.edges, direction, nodeId, connected)
  {
    var edges := data.edges;
    connected := [];
    var queue := [nodeId];
    var visited: set<string> := {};
    ghost var s := Search([], [], [nodeId], [0], map[]);
    Begin(edges, direction, nodeId);
    ghost var all := Endpoints(edges, nodeId);
    while queue != []
      invariant s.Valid(edges, direction, nodeId)
      invariant s.connected == connected && s.queue == queue && s.visited.Keys == visited
      invariant visited <= all && forall v :: v in queue ==> v in all
      decreases |all - visited|, |queue|
    {
      var current := queue[0];
      queue := queue[1..];
      if current == "" || current in visited {
        Skip(edges, direction, nodeId, s);
        s := s.Skipped();
        continue;
      }
      OneFewer(all, visited, current);
      visited := visited + {current};
      connected, queue, s := VisitNode(edges, direction, current, connected, queue, nodeId, s);
    }
    Found(edges, direction, nodeId, s);
  }

  // ---- what connectedness means ----

  function Reverse(dir: Direction): Direction {
    match dir
    case Outbound => Inbound
    case Inbound => Outbound
    case Both => Both
  }

  /** A walk between non-empty ids can be walked backwards in the converse direction. */
  lemma WalkBack(edges: seq<Edge>, dir: Direction, u: string, n: nat, v: string)
    requires u != "" && v != "" && Walk(edges, dir, u, n, v)
    ensures Walk(edges, Reverse(dir), v, n, u)
  {
    var p :| Joins(p, u, n, v) && IsPath(edges, dir, p);
    var q := seq(n + 1, i requires 0 <= i <= n => p[n - i]);
    forall i | 0 <= i < n
      ensures q[i] != "" && Linked(edges, Reverse(dir), q[i], q[i + 1])
    {
      assert Linked(edges, dir, p[n - i - 1], p[n - i]);
      LinkedReversed(edges, dir, p[n - i - 1], p[n - i]);
    }
    assert Joins(q, v, n, u) && IsPath(edges, Reverse(dir), q);
  }

  /** Outbound and inbound are converses, and both-ways connectedness is symmetric. */
  lemma Converse(edges: seq<Edge>, dir: Direction, u: string, v: string)
    requires u != "" && v != ""
    ensures Connected(edges, dir, u, v) <==> Connected(edges, Reverse(dir), v, u)
  {
    if Connected(edges, dir, u, v) {
      var n :| n >= 1 && Walk(edges, dir, u, n, v);
      WalkBack(edges, dir, u, n, v);
    }
    if Connected(edges, Reverse(dir), v, u) {
      var n :| n >= 1 && Walk(edges, Reverse(dir), v, n, u);
      WalkBack(edges, Reverse(dir), v, n, u);
    }
  }

  /** Both ways, nodes of one component have the same connected nodes. */
  lemma SameComponent(edges: seq<Edge>, u: string, v: string, w: string)
    requires u != "" && v != "" && Connected(edges, Both, u, v)
    ensures Connected(edges, Both, u, w) <==> Connected(edges, Both, v, w)
  {
    Converse(edges, Both, u, v);
    var m :| m >= 1 && Walk(edges, Both, u, m, v);
    var k :| k >= 1 && Walk(edges, Both, v, k, u);
    if Connected(edges, Both, v, w) {
      var n :| n >= 1 && Walk(edges, Both, v, n, w);
      Append(edges, Both, u, m, v, n, w);
    }
    if Connected(edges, Both, u, w) {
      var n :| n >= 1 && Walk(edges, Both, u, n, w);
      Append(edges, Both, v, k, u, n, w);
    }
  }

  /** Both ways, the start is among its own connected nodes exactly when it has an edge to
      or from a node with a non-empty id. */
  lemma StartIncluded(edges: seq<Edge>, u: string)
    requires u != ""
    ensures Connected(edges, Both, u, u) <==>
            exists e :: e in edges && ((e.source == u && e.target != "") || (e.target == u && e.source != ""))
  {
    if e :| e in edges && ((e.source == u && e.target != "") || (e.target == u && e.source != "")) {
      var w := if e.source == u && e.target != "" then e.target else e.source;
      NoStep(edges, Both, u);
      OneMore(edges, Both, u, 0, u, w);
      OneMore(edges, Both, u, 1, w, u);
    }
    if Connected(edges, Both, u, u) {
      var n :| n >= 1 && Walk(edges, Both, u, n, u);
      var p := LastEdge(edges, Both, u, n, u);
    }
  }
}
