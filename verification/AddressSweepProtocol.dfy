/** Sweeps of floating IPs, address ranges or routes by any number of collectors, interleaved with
    other writers. They look nothing up: what is in scope and not marked is deleted. */
module AddressSweepProtocol {
  import opened Text
  import opened VniNames
  import opened ClusterState
  import opened OrphanCollector

  datatype Kind = FloatingIps | AddressRanges | Routes

  /** What the gateway list protects. */
  function GatewayMarksOf(kind: Kind, c: Cluster): set<string> {
    match kind
    case FloatingIps => FieldMarks(c.gateways, FIP_KEY)
    case AddressRanges => FieldMarks(c.gateways, PAR_KEY)
    case Routes => ClusterState.RouteMarks(c)
  }

  /** What the list of FloatingIP objects protects; the other sweeps do not read it. */
  function ObjectMarksOf(kind: Kind, c: Cluster): set<string> {
    if kind.FloatingIps? then FieldMarks(c.floatingIps, FIP_KEY) else {}
  }

  /** Which names under which keys protect a resource of each kind. */
  lemma ProtectionMeaning(c: Cluster, id: string)
    ensures id in GatewayMarksOf(FloatingIps, c) <==>
            id != "" && exists k :: k in c.gateways && Says(c.gateways[k], "floatingIPID", id)
    ensures id in GatewayMarksOf(AddressRanges, c) <==>
            id != "" && exists k :: k in c.gateways && Says(c.gateways[k], "publicAddressRangeID", id)
    ensures id in GatewayMarksOf(Routes, c) <==>
            id != "" && exists k :: k in c.gateways && HoldsRoute(c.gateways[k], id)
    ensures id in ObjectMarksOf(FloatingIps, c) <==>
            id != "" && exists k :: k in c.floatingIps && Says(c.floatingIps[k], "floatingIPID", id)
    ensures ObjectMarksOf(AddressRanges, c) == ObjectMarksOf(Routes, c) == {}
  {
    FieldMarksMeaning(c.gateways, "floatingIPID");
    FieldMarksMeaning(c.floatingIps, "floatingIPID");
    FieldMarksMeaning(c.gateways, "publicAddressRangeID");
    RouteMarksMeaning(c);
  }

  datatype Sweep =
    | Idle
    | Listed(items: seq<Resource>)
    | GatewaysRead(items: seq<Resource>, marks: set<string>)
    | Sweeping(items: seq<Resource>, marks: set<string>)

  /** As for VNI sweeps, `cluster` is the Kubernetes cluster that is read next; steps of the environment
      go from the cluster of one collector to that of another. */
  datatype State = State(cluster: Cluster, names: map<string, string>, sweeps: map<string, Sweep>)

  datatype Action =
    | Environment
    | ListAll(who: string, listing: Option<seq<Resource>>)
    | ReadGateways(who: string, ok: bool)
    | ReadObjects(who: string, ok: bool)
    | Skip(who: string)
    | Delete(who: string, ok: bool)
    | Finish(who: string)

  ghost predicate Moves(kind: Kind, s: State, a: Action, before: Sweep, after: Sweep)
    requires !a.Environment?
  {
    match a
    case ListAll(c, listing) =>
      && before.Idle?
      && (if listing.None? then after == before
          else Lists(listing.value, s.names, "") && after == Listed(listing.value))
    case ReadGateways(c, ok) =>
      && before.Listed?
      && after == GatewaysRead(before.items, if ok then GatewayMarksOf(kind, s.cluster) else {})
    case ReadObjects(c, ok) =>
      && before.GatewaysRead?
      && after == Sweeping(before.items, before.marks + if ok then ObjectMarksOf(kind, s.cluster) else {})
    case Skip(c) =>
      && before.Sweeping? && before.items != []
      && (!HasPrefix(before.items[0].name, Prefix(c)) || before.items[0].id in before.marks)
      && after == Sweeping(before.items[1..], before.marks)
    case Delete(c, ok) =>
      && before.Sweeping? && before.items != []
      && HasPrefix(before.items[0].name, Prefix(c)) && before.items[0].id !in before.marks
      && after == Sweeping(before.items[1..], before.marks)
    case Finish(c) =>
      && before.Sweeping? && before.items == []
      && after == Idle
  }

  ghost predicate Step(kind: Kind, s: State, a: Action, s': State) {
    if a.Environment? then s'.sweeps == s.sweeps
    else
      && a.who in s.sweeps && a.who in s'.sweeps
      && s'.sweeps == s.sweeps[a.who := s'.sweeps[a.who]]
      && s'.cluster == s.cluster
      && Moves(kind, s, a, s.sweeps[a.who], s'.sweeps[a.who])
      && s'.names == if a.Delete? && a.ok then s.names - {s.sweeps[a.who].items[0].id} else s.names
  }

  ghost predicate Run(kind: Kind, states: seq<State>, actions: seq<Action>) {
    && |states| == |actions| + 1
    && (forall c :: c in states[0].sweeps ==> states[0].sweeps[c].Idle?)
    && (forall i :: 0 <= i < |actions| ==> Step(kind, states[i], actions[i], states[i + 1]))
  }

  /** At step `i` collector `c` asks the VPC to delete `id`. */
  ghost predicate Deletes(kind: Kind, states: seq<State>, actions: seq<Action>, i: nat, c: string, id: string)
    requires Run(kind, states, actions)
  {
    && i < |actions| && actions[i].Delete? && actions[i].who == c
    && c in states[i].sweeps && states[i].sweeps[c].Sweeping? && states[i].sweeps[c].items != []
    && states[i].sweeps[c].items[0].id == id
  }

  // ---- where the data of a sweep came from ----

  datatype Trail = Trail(listed: nat, gateways: nat, objects: nat)

  ghost predicate ItemsListed(items: seq<Resource>, names: map<string, string>) {
    forall r :: r in items ==> r.id in names && names[r.id] == r.name
  }

  ghost predicate ReadGatewaysAt(kind: Kind, states: seq<State>, actions: seq<Action>, c: string, t: Trail,
                                 marks: set<string>)
    requires Run(kind, states, actions)
  {
    && t.listed < t.gateways < |actions| && actions[t.gateways].ReadGateways? && actions[t.gateways].who == c
    && (actions[t.gateways].ok ==> GatewayMarksOf(kind, states[t.gateways].cluster) <= marks)
  }

  ghost predicate ReadObjectsAt(kind: Kind, states: seq<State>, actions: seq<Action>, c: string, t: Trail,
                                marks: set<string>)
    requires Run(kind, states, actions)
  {
    && t.gateways < t.objects < |actions| && actions[t.objects].ReadObjects? && actions[t.objects].who == c
    && (actions[t.objects].ok ==> ObjectMarksOf(kind, states[t.objects].cluster) <= marks)
  }

  ghost predicate OnTrail(kind: Kind, states: seq<State>, actions: seq<Action>, c: string, i: nat, t: Trail)
    requires Run(kind, states, actions) && i < |states| && c in states[i].sweeps
  {
    var sweep := states[i].sweeps[c];
    sweep.Idle? ||
    (&& t.listed < i && actions[t.listed].ListAll? && actions[t.listed].who == c
     && (forall j :: t.listed < j < |states| && j <= i && c in states[j].sweeps ==> !states[j].sweeps[c].Idle?)
     && (forall j :: t.listed < j < i ==> !(actions[j].ListAll? && actions[j].who == c))
     && ItemsListed(sweep.items, states[t.listed].names)
     && (!sweep.Listed? ==> t.gateways < i && ReadGatewaysAt(kind, states, actions, c, t, sweep.marks))
     && (sweep.Sweeping? ==> t.objects < i && ReadObjectsAt(kind, states, actions, c, t, sweep.marks)))
  }

  lemma {:induction false} SweepsStay(kind: Kind, states: seq<State>, actions: seq<Action>, i: nat, c: string)
    requires Run(kind, states, actions) && i < |states|
    ensures c in states[i].sweeps <==> c in states[0].sweeps
  {
    if i > 0 {
      assert Step(kind, states[i - 1], actions[i - 1], states[i]);
      SweepsStay(kind, states, actions, i - 1, c);
    }
  }

  lemma OthersKeepTrail(kind: Kind, states: seq<State>, actions: seq<Action>, c: string, i: nat, t: Trail)
    requires Run(kind, states, actions) && i < |actions| && c in states[i].sweeps && c in states[i + 1].sweeps
    requires OnTrail(kind, states, actions, c, i, t)
    requires actions[i].Environment? || actions[i].who != c
    ensures OnTrail(kind, states, actions, c, i + 1, t)
  {
    assert Step(kind, states[i], actions[i], states[i + 1]);
    assert states[i + 1].sweeps[c] == states[i].sweeps[c];
  }

  function Extend(t: Trail, a: Action, i: nat): Trail {
    match a
    case ListAll(_, _) => t.(listed := i)
    case ReadGateways(_, _) => t.(gateways := i)
    case ReadObjects(_, _) => t.(objects := i)
    case _ => t
  }

  lemma OwnStepExtendsTrail(kind: Kind, states: seq<State>, actions: seq<Action>, c: string, i: nat, t: Trail)
    requires Run(kind, states, actions) && i < |actions| && c in states[i].sweeps && c in states[i + 1].sweeps
    requires OnTrail(kind, states, actions, c, i, t)
    requires !actions[i].Environment? && actions[i].who == c
    ensures OnTrail(kind, states, actions, c, i + 1, Extend(t, actions[i], i))
  {
    assert Step(kind, states[i], actions[i], states[i + 1]);
    var before, after := states[i].sweeps[c], states[i + 1].sweeps[c];
    assert Moves(kind, states[i], actions[i], before, after);
    match actions[i] {
      case ListAll(_, _) =>
      case ReadGateways(_, _) =>
      case ReadObjects(_, _) =>
      case _ =>
    }
  }

  lemma {:induction false} Provenance(kind: Kind, states: seq<State>, actions: seq<Action>, c: string, i: nat)
    returns (t: Trail)
    requires Run(kind, states, actions) && i < |states| && c in states[i].sweeps
    ensures OnTrail(kind, states, actions, c, i, t)
  {
    t := Trail(0, 0, 0);
    if i > 0 {
      var a := actions[i - 1];
      assert Step(kind, states[i - 1], a, states[i]);
      t := Provenance(kind, states, actions, c, i - 1);
      if a.Environment? || a.who != c {
        OthersKeepTrail(kind, states, actions, c, i - 1, t);
      } else {
        OwnStepExtendsTrail(kind, states, actions, c, i - 1, t);
        t := Extend(t, a, i - 1);
      }
    }
  }

  // ---- what no run does ----

  /** Why a delete happened: the resource was in the last listing of that collector under a name
      with its prefix, and later the lists that succeeded did not protect it. */
  lemma DeletionAudit(kind: Kind, states: seq<State>, actions: seq<Action>, i: nat, c: string, id: string)
    returns (t: Trail)
    requires Run(kind, states, actions) && Deletes(kind, states, actions, i, c, id)
    ensures t.listed < t.gateways < t.objects < i
    ensures actions[t.listed].ListAll? && actions[t.listed].who == c
    ensures forall j :: t.listed < j < i ==> !(actions[j].ListAll? && actions[j].who == c)
    ensures forall j :: t.listed < j <= i && c in states[j].sweeps ==> !states[j].sweeps[c].Idle?
    ensures id in states[t.listed].names && HasPrefix(states[t.listed].names[id], Prefix(c))
    ensures actions[t.gateways].ReadGateways? && actions[t.gateways].who == c
    ensures actions[t.gateways].ok ==> id !in GatewayMarksOf(kind, states[t.gateways].cluster)
    ensures actions[t.objects].ReadObjects? && actions[t.objects].who == c
    ensures actions[t.objects].ok ==> id !in ObjectMarksOf(kind, states[t.objects].cluster)
  {
    t := Provenance(kind, states, actions, c, i);
    assert Step(kind, states[i], actions[i], states[i + 1]);
    var items := states[i].sweeps[c].items;
    assert items[0] in items;
  }

  lemma BegunSinceIdle(kind: Kind, states: seq<State>, actions: seq<Action>, from: nat, i: nat, c: string, id: string)
    returns (t: Trail)
    requires Run(kind, states, actions) && from <= i && Deletes(kind, states, actions, i, c, id)
    requires c in states[from].sweeps ==> states[from].sweeps[c].Idle?
    ensures from <= t.listed < t.gateways < t.objects < i
    ensures id in states[t.listed].names && HasPrefix(states[t.listed].names[id], Prefix(c))
    ensures actions[t.gateways].ReadGateways? && actions[t.gateways].who == c
    ensures actions[t.gateways].ok ==> id !in GatewayMarksOf(kind, states[t.gateways].cluster)
    ensures actions[t.objects].ReadObjects? && actions[t.objects].who == c
    ensures actions[t.objects].ok ==> id !in ObjectMarksOf(kind, states[t.objects].cluster)
  {
    t := DeletionAudit(kind, states, actions, i, c, id);
    SweepsStay(kind, states, actions, i, c);
    SweepsStay(kind, states, actions, from, c);
  }

  /** From before a listing on no collector deletes a floating IP, range or route that gateways name
      whenever that collector lists them, if those lists succeed. */
  lemma NamedResourceSurvives(kind: Kind, states: seq<State>, actions: seq<Action>, from: nat, i: nat,
                              c: string, id: string)
    requires Run(kind, states, actions) && from <= i < |states|
    requires c in states[from].sweeps ==> states[from].sweeps[c].Idle?
    requires forall j :: from <= j < i && j < |actions| && actions[j].ReadGateways? && actions[j].who == c
                         ==> actions[j].ok && id in GatewayMarksOf(kind, states[j].cluster)
    ensures !Deletes(kind, states, actions, i, c, id)
  {
    if Deletes(kind, states, actions, i, c, id) {
      var t := BegunSinceIdle(kind, states, actions, from, i, c, id);
    }
  }

  /** A resource that did not exist at the latest listing is not deleted by that sweep. */
  lemma NewResourceSurvives(kind: Kind, states: seq<State>, actions: seq<Action>, l: nat, i: nat, c: string, id: string)
    requires Run(kind, states, actions) && l < i < |states|
    requires actions[l].ListAll? && actions[l].who == c
    requires forall j :: l < j < i ==> !(actions[j].ListAll? && actions[j].who == c)
    requires id !in states[l].names
    ensures !Deletes(kind, states, actions, i, c, id)
  {
    if Deletes(kind, states, actions, i, c, id) {
      var t := DeletionAudit(kind, states, actions, i, c, id);
    }
  }

  /** Collectors with distinct dash-free ids do not delete each other's resources: one that carries
      the other's prefix from before a listing on is kept. */
  lemma ForeignResourceSurvives(kind: Kind, states: seq<State>, actions: seq<Action>, from: nat, i: nat,
                                c: string, other: string, id: string)
    requires Run(kind, states, actions) && from <= i < |states|
    requires c in states[from].sweeps ==> states[from].sweeps[c].Idle?
    requires c != other && '-' !in c && '-' !in other
    requires forall j :: from <= j <= i && id in states[j].names ==> HasPrefix(states[j].names[id], Prefix(other))
    ensures !Deletes(kind, states, actions, i, c, id)
  {
    if Deletes(kind, states, actions, i, c, id) {
      var t := BegunSinceIdle(kind, states, actions, from, i, c, id);
      ScopesDisjoint(other, c, states[t.listed].names[id]);
    }
  }

  // ---- the audit leaves nothing out ----

  /** A lone sweep of collector `c` over the one resource `r`: the clusters its lists see, and
      whether they succeed. */
  datatype Stray = Stray(
    kind: Kind, c: string, r: Resource, atGateways: Cluster, atObjects: Cluster, gatewaysOk: bool, objectsOk: bool)
  {
    function FromGateways(): set<string> {
      if gatewaysOk then GatewayMarksOf(kind, atGateways) else {}
    }

    function Marks(): set<string> {
      FromGateways() + if objectsOk then ObjectMarksOf(kind, atObjects) else {}
    }

    /** What the audit says of a deletion. */
    predicate Unprotected() {
      && HasPrefix(r.name, Prefix(c))
      && (gatewaysOk ==> r.id !in GatewayMarksOf(kind, atGateways))
      && (objectsOk ==> r.id !in ObjectMarksOf(kind, atObjects))
    }

    function ClusterAt(j: nat): Cluster {
      if j <= 2 then atGateways else atObjects
    }

    function ActionAt(j: nat): Action {
      match j
      case 0 => ListAll(c, Some([r]))
      case 1 => ReadGateways(c, gatewaysOk)
      case 3 => ReadObjects(c, objectsOk)
      case 4 => Delete(c, true)
      case _ => Environment
    }

    function SweepAt(j: nat): Sweep {
      match j
      case 0 => Idle
      case 1 => Listed([r])
      case 2 => GatewaysRead([r], FromGateways())
      case 3 => GatewaysRead([r], FromGateways())
      case 4 => Sweeping([r], Marks())
      case _ => Sweeping([], Marks())
    }

    function StateAt(j: nat): State {
      State(ClusterAt(j), if j <= 4 then map[r.id := r.name] else map[], map[c := SweepAt(j)])
    }
  }

  lemma StrayMoves(t: Stray, j: nat)
    requires t.Unprotected() && j in {0, 1, 3, 4}
    ensures Moves(t.kind, t.StateAt(j), t.ActionAt(j), t.SweepAt(j), t.SweepAt(j + 1))
  {
    if j == 4 {
      assert [t.r][1..] == [];
    }
  }

  lemma StrayStep(t: Stray, j: nat)
    requires t.Unprotected() && j < 5
    ensures Step(t.kind, t.StateAt(j), t.ActionAt(j), t.StateAt(j + 1))
  {
    if j != 2 {
      StrayMoves(t, j);
      assert map[t.r.id := t.r.name] - {t.r.id} == map[];
      SoleStep(t.kind, t.StateAt(j), t.ActionAt(j), t.StateAt(j + 1), t.c, t.SweepAt(j), t.SweepAt(j + 1));
    }
  }

  /** A step of the only collector there is. */
  lemma SoleStep(kind: Kind, s: State, a: Action, s': State, c: string, before: Sweep, after: Sweep)
    requires !a.Environment? && a.who == c && s.sweeps == map[c := before] && s'.sweeps == map[c := after]
    requires s'.cluster == s.cluster && Moves(kind, s, a, before, after)
    requires s'.names == if a.Delete? && a.ok then s.names - {before.items[0].id} else s.names
    ensures Step(kind, s, a, s')
  {}

  /** Whatever the audit does not exclude can happen, for each kind of resource. */
  lemma DeletionPossible(t: Stray)
    returns (states: seq<State>, actions: seq<Action>)
    requires t.Unprotected()
    ensures Run(t.kind, states, actions) && Deletes(t.kind, states, actions, 4, t.c, t.r.id)
    ensures |actions| == 5 && forall j :: 0 <= j < 5 ==> actions[j] == t.ActionAt(j)
    ensures forall j :: 0 <= j <= 5 ==> states[j].cluster == t.ClusterAt(j)
    ensures forall j :: 0 <= j <= 5 ==> states[j].names == if j <= 4 then map[t.r.id := t.r.name] else map[]
  {
    states := seq(6, j requires 0 <= j < 6 => t.StateAt(j));
    actions := seq(5, j requires 0 <= j < 5 => t.ActionAt(j));
    forall j | 0 <= j < 5
      ensures Step(t.kind, states[j], actions[j], states[j + 1])
    {
      StrayStep(t, j);
    }
  }

  // ---- which collectors compete ----

  ghost predicate DeletesNamed(kind: Kind, states: seq<State>, actions: seq<Action>, i: nat, c: string, id: string,
                               name: string)
  {
    && Run(kind, states, actions) && Deletes(kind, states, actions, i, c, id)
    && forall j :: 0 <= j < |states| && id in states[j].names ==> states[j].names[id] == name
  }

  /** Collector `c` can delete a resource named `name` throughout. */
  ghost predicate CanDelete(kind: Kind, c: string, name: string) {
    exists states, actions, i, id :: DeletesNamed(kind, states, actions, i, c, id, name)
  }

  /** It can exactly when the name has its prefix. */
  lemma CanDeleteIff(kind: Kind, c: string, name: string)
    ensures CanDelete(kind, c, name) <==> HasPrefix(name, Prefix(c))
  {
    forall states, actions, i, id | DeletesNamed(kind, states, actions, i, c, id, name)
      ensures HasPrefix(name, Prefix(c))
    {
      var t := DeletionAudit(kind, states, actions, i, c, id);
    }
    if HasPrefix(name, Prefix(c)) {
      var none := Cluster(map[], map[], map[]);
      var t := Stray(kind, c, Resource("id", name), none, none, true, true);
      var states, actions := DeletionPossible(t);
      assert DeletesNamed(kind, states, actions, 4, c, "id", name);
    }
  }

  /** Some name can be deleted by either of two collectors exactly when one id, with a dash after it,
      begins the other with a dash after it. */
  lemma CompeteIff(kind: Kind, c1: string, c2: string)
    ensures (exists name :: CanDelete(kind, c1, name) && CanDelete(kind, c2, name)) <==>
            c1 + "-" <= c2 + "-" || c2 + "-" <= c1 + "-"
  {
    ScopesOverlap(c1, c2);
    if name :| CanDelete(kind, c1, name) && CanDelete(kind, c2, name) {
      CanDeleteIff(kind, c1, name);
      CanDeleteIff(kind, c2, name);
    }
    if name :| HasPrefix(name, Prefix(c1)) && HasPrefix(name, Prefix(c2)) {
      CanDeleteIff(kind, c1, name);
      CanDeleteIff(kind, c2, name);
    }
  }

  // ---- resources in a cluster that does not change ----

  /** Every list of collector `c` succeeds. */
  ghost predicate AllListsSucceed(actions: seq<Action>, c: string) {
    forall j :: 0 <= j < |actions| && !actions[j].Environment? && actions[j].who == c ==>
                  && (actions[j].ListAll? ==> actions[j].listing.Some?)
                  && (actions[j].ReadGateways? || actions[j].ReadObjects? ==> actions[j].ok)
  }

  /** Although every list of `c` succeeds and the cluster does not change, `c` deletes the resource. */
  ghost predicate LosesSettled(kind: Kind, states: seq<State>, actions: seq<Action>, i: nat, c: string, id: string,
                               name: string, cluster: Cluster)
  {
    && DeletesNamed(kind, states, actions, i, c, id, name)
    && AllListsSucceed(actions, c)
    && (forall j :: 0 <= j < |states| ==> states[j].cluster == cluster)
  }

  /** That happens exactly to resources with its prefix that no gateway and, for floating IPs, no
      FloatingIP object names under the keys that are read. Virtual machines protect nothing. */
  lemma LosesSettledIff(kind: Kind, c: string, id: string, name: string, cluster: Cluster)
    ensures (exists states, actions, i :: LosesSettled(kind, states, actions, i, c, id, name, cluster)) <==>
            HasPrefix(name, Prefix(c)) && id !in GatewayMarksOf(kind, cluster) && id !in ObjectMarksOf(kind, cluster)
  {
    forall states, actions, i | LosesSettled(kind, states, actions, i, c, id, name, cluster)
      ensures HasPrefix(name, Prefix(c)) && id !in GatewayMarksOf(kind, cluster) && id !in ObjectMarksOf(kind, cluster)
    {
      var t := DeletionAudit(kind, states, actions, i, c, id);
    }
    var t := Stray(kind, c, Resource(id, name), cluster, cluster, true, true);
    if t.Unprotected() {
      var states, actions := DeletionPossible(t);
      assert LosesSettled(kind, states, actions, 4, c, id, name, cluster);
    }
  }

  /** The floating IP the webhook made for a virtual machine can be deleted while the machine exists
      and records it all the time, unless a gateway or a FloatingIP object names it. */
  lemma VmFipLost(c: string, ns: string, vm: string, hash: string, id: string, cluster: Cluster)
    returns (states: seq<State>, actions: seq<Action>)
    requires |hash| >= 7 && |Prefix(c)| <= 55
    requires VmKey(ns, vm) in cluster.vms && id in cluster.vms[VmKey(ns, vm)].fipIds
    requires id !in GatewayMarksOf(FloatingIps, cluster) && id !in ObjectMarksOf(FloatingIps, cluster)
    ensures var name := TruncateVpcName("roks-" + c + "-" + ns + "-" + vm + "-fip", hash);
            LosesSettled(FloatingIps, states, actions, 4, c, id, name, cluster)
  {
    var rest := ns + "-" + vm + "-fip";
    var name := TruncateVpcName("roks-" + c + "-" + ns + "-" + vm + "-fip", hash);
    assert "roks-" + c + "-" + ns + "-" + vm + "-fip" == Prefix(c) + rest;
    PrefixKept(c, rest, hash);
    states, actions := DeletionPossible(Stray(FloatingIps, c, Resource(id, name), cluster, cluster, true, true));
  }

  // ---- floating IPs that FloatingIP objects publish ----

  /** In every state a FloatingIP object publishes the id, as the CRD has it, and the address bears
      `name` as long as it exists; every list of `c` succeeds, and its gateway lists see just these
      gateways; and `c` deletes the address. */
  ghost predicate LosesPublished(states: seq<State>, actions: seq<Action>, i: nat, c: string, id: string, name: string,
                                 gateways: map<string, CustomObject>)
  {
    && DeletesNamed(FloatingIps, states, actions, i, c, id, name)
    && AllListsSucceed(actions, c)
    && (forall j :: 0 <= j < |states| ==> CrdStatuses(states[j].cluster) && Publishes(states[j].cluster, id))
    && (forall j :: 0 <= j < |actions| && actions[j].ReadGateways? && actions[j].who == c
                    ==> states[j].cluster.gateways == gateways)
  }

  lemma PublishedFipLost(c: string, id: string, name: string, gateways: map<string, CustomObject>)
    returns (states: seq<State>, actions: seq<Action>)
    requires HasPrefix(name, Prefix(c)) && id !in FieldMarks(gateways, FIP_KEY)
    ensures LosesPublished(states, actions, 4, c, id, name, gateways)
  {
    var fip := CustomObject(Some(Status(map["fipID" := id], map[])));
    var cluster := Cluster(map[], gateways, map["fip" := fip]);
    assert cluster.floatingIps["fip"] == fip && Publishes(cluster, id);
    CrdStatusesProtectNothing(cluster);
    var t := Stray(FloatingIps, c, Resource(id, name), cluster, cluster, true, true);
    states, actions := DeletionPossible(t);
  }

  /** An address that FloatingIP objects publish all the time can be deleted by a collector whose
      lists all succeed, if and only if its name has that collector's prefix and no gateway the
      gateway list sees names the address. */
  lemma PublishedFipLostIff(c: string, id: string, name: string, gateways: map<string, CustomObject>)
    ensures (exists states, actions, i :: LosesPublished(states, actions, i, c, id, name, gateways)) <==>
            && "roks-" + c + "-" <= name
            && (id == "" || forall k :: k in gateways ==> !Says(gateways[k], "floatingIPID", id))
  {
    FieldMarksMeaning(gateways, "floatingIPID");
    forall states, actions, i | LosesPublished(states, actions, i, c, id, name, gateways)
      ensures HasPrefix(name, Prefix(c)) && id !in FieldMarks(gateways, FIP_KEY)
    {
      var t := DeletionAudit(FloatingIps, states, actions, i, c, id);
    }
    if HasPrefix(name, Prefix(c)) && id !in FieldMarks(gateways, FIP_KEY) {
      var states, actions := PublishedFipLost(c, id, name, gateways);
    }
  }
}
