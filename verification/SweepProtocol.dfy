/** VNI sweeps of any number of collectors interleaved with other writers: every list, get
    and delete is one step, and between any two steps the cluster and the VPC may change. */
module SweepProtocol {
  import opened Text
  import opened VniNames
  import opened ClusterState
  import opened OrphanCollector

  /** How far a collector's VNI sweep has come. */
  datatype Sweep =
    | Idle
    | Listed(items: seq<Resource>)
    | VmsRead(items: seq<Resource>, marks: set<string>)
    | Sweeping(items: seq<Resource>, marks: set<string>)
    | Deleting(target: Resource, items: seq<Resource>, marks: set<string>)

  /** `vnis` maps ids to names; `sweeps` is indexed by the cluster id of the collector. Each collector
      reads the Kubernetes cluster of its id and all share one VPC: `cluster` is the one that is read
      next, and steps of the environment, which may change it in any way, go from one to another. */
  datatype State = State(cluster: Cluster, vnis: map<string, string>, sweeps: map<string, Sweep>)

  datatype Action =
    | Environment
    | ListVnis(who: string, listing: Option<seq<Resource>>)
    | ReadVms(who: string, ok: bool)
    | ReadGateways(who: string, ok: bool)
    | SkipItem(who: string)
    | GetVm(who: string, outcome: Lookup)
    | DeleteVni(who: string, ok: bool)
    | Finish(who: string)

  function VmOf(name: string, clusterId: string): VmKey {
    var (ns, vm) := ParseVniName(name, clusterId);
    VmKey(ns, vm)
  }

  /** What collector `c` may do next, and what its own sweep becomes. */
  ghost predicate Moves(s: State, a: Action, before: Sweep, after: Sweep)
    requires !a.Environment?
  {
    match a
    case ListVnis(c, listing) =>
      && before.Idle?
      && (if listing.None? then after == before
          else Lists(listing.value, s.vnis, VniListPrefix(c)) && after == Listed(listing.value))
    case ReadVms(c, ok) =>
      && before.Listed?
      && after == VmsRead(before.items, if ok then VmMarks(s.cluster) else {})
    case ReadGateways(c, ok) =>
      && before.VmsRead?
      && after == Sweeping(before.items, before.marks + if ok then GatewayMarks(s.cluster) else {})
    case SkipItem(c) =>
      && before.Sweeping? && before.items != []
      && (before.items[0].id in before.marks || !InScope(before.items[0].name, c))
      && after == Sweeping(before.items[1..], before.marks)
    case GetVm(c, outcome) =>
      && before.Sweeping? && before.items != []
      && before.items[0].id !in before.marks && InScope(before.items[0].name, c)
      && (outcome.Found? ==> VmOf(before.items[0].name, c) in s.cluster.vms)
      && (outcome.NotFound? ==> VmOf(before.items[0].name, c) !in s.cluster.vms)
      && after == (if outcome.NotFound? then Deleting(before.items[0], before.items[1..], before.marks)
                   else Sweeping(before.items[1..], before.marks))
    case DeleteVni(c, ok) =>
      && before.Deleting?
      && after == Sweeping(before.items, before.marks)
    case Finish(c) =>
      && before.Sweeping? && before.items == []
      && after == Idle
  }

  ghost predicate Step(s: State, a: Action, s': State) {
    if a.Environment? then s'.sweeps == s.sweeps
    else
      && a.who in s.sweeps && a.who in s'.sweeps
      && s'.sweeps == s.sweeps[a.who := s'.sweeps[a.who]]
      && s'.cluster == s.cluster
      && Moves(s, a, s.sweeps[a.who], s'.sweeps[a.who])
      && s'.vnis == if a.DeleteVni? && a.ok then s.vnis - {s.sweeps[a.who].target.id} else s.vnis
  }

  /** A run starts with every collector idle. */
  ghost predicate Run(states: seq<State>, actions: seq<Action>) {
    && |states| == |actions| + 1
    && (forall c :: c in states[0].sweeps ==> states[0].sweeps[c].Idle?)
    && (forall i :: 0 <= i < |actions| ==> Step(states[i], actions[i], states[i + 1]))
  }

  ghost predicate Deletes(states: seq<State>, actions: seq<Action>, i: nat, c: string, id: string)
    requires Run(states, actions)
  {
    && i < |actions| && actions[i].DeleteVni? && actions[i].who == c
    && c in states[i].sweeps && states[i].sweeps[c].Deleting? && states[i].sweeps[c].target.id == id
  }

  // ---- where the data of a sweep came from ----

  /** Instants at which a sweep listed VNIs, read VMs, read gateways and looked a VM up. */
  datatype Trail = Trail(listed: nat, vms: nat, gateways: nat, lookup: nat)

  ghost predicate ItemsListed(items: seq<Resource>, vnis: map<string, string>) {
    forall r :: r in items ==> r.id in vnis && vnis[r.id] == r.name
  }

  ghost predicate ReadVmsAt(states: seq<State>, actions: seq<Action>, c: string, t: Trail, marks: set<string>)
    requires Run(states, actions)
  {
    && t.listed < t.vms < |actions| && actions[t.vms].ReadVms? && actions[t.vms].who == c
    && (actions[t.vms].ok ==> VmMarks(states[t.vms].cluster) <= marks)
  }

  ghost predicate ReadGatewaysAt(states: seq<State>, actions: seq<Action>, c: string, t: Trail, marks: set<string>)
    requires Run(states, actions)
  {
    && ReadVmsAt(states, actions, c, t, marks)
    && t.vms < t.gateways < |actions| && actions[t.gateways].ReadGateways? && actions[t.gateways].who == c
    && (actions[t.gateways].ok ==> GatewayMarks(states[t.gateways].cluster) <= marks)
  }

  /** The sweep of `c` in state `i` was begun by the listing at `t.listed`, has not been idle
      since, and holds what the reads at the other instants returned. */
  ghost predicate OnTrail(states: seq<State>, actions: seq<Action>, c: string, i: nat, t: Trail)
    requires Run(states, actions) && i < |states| && c in states[i].sweeps
  {
    var sweep := states[i].sweeps[c];
    sweep.Idle? ||
    (&& t.listed < i && actions[t.listed].ListVnis? && actions[t.listed].who == c
     && (forall j :: t.listed < j < |states| && j <= i && c in states[j].sweeps ==> !states[j].sweeps[c].Idle?)
     && (forall j :: t.listed < j < i ==> !(actions[j].ListVnis? && actions[j].who == c))
     && ItemsListed(sweep.items, states[t.listed].vnis)
     && (sweep.VmsRead? ==> t.vms < i && ReadVmsAt(states, actions, c, t, sweep.marks))
     && (sweep.Sweeping? || sweep.Deleting? ==>
           t.gateways < i && ReadGatewaysAt(states, actions, c, t, sweep.marks))
     && (sweep.Deleting? ==>
           && t.gateways < t.lookup < i && actions[t.lookup] == GetVm(c, NotFound)
           && ItemsListed([sweep.target], states[t.listed].vnis)
           && sweep.target.id !in sweep.marks
           && InScope(sweep.target.name, c)
           && VmOf(sweep.target.name, c) !in states[t.lookup].cluster.vms))
  }

  lemma {:induction false} SweepsStay(states: seq<State>, actions: seq<Action>, i: nat, c: string)
    requires Run(states, actions) && i < |states|
    ensures c in states[i].sweeps <==> c in states[0].sweeps
  {
    if i > 0 {
      assert Step(states[i - 1], actions[i - 1], states[i]);
      SweepsStay(states, actions, i - 1, c);
    }
  }

  /** Steps of other collectors and of the environment leave the trail valid. */
  lemma OthersKeepTrail(states: seq<State>, actions: seq<Action>, c: string, i: nat, t: Trail)
    requires Run(states, actions) && i < |actions| && c in states[i].sweeps && c in states[i + 1].sweeps
    requires OnTrail(states, actions, c, i, t)
    requires actions[i].Environment? || actions[i].who != c
    ensures OnTrail(states, actions, c, i + 1, t)
  {
    assert Step(states[i], actions[i], states[i + 1]);
    assert states[i + 1].sweeps[c] == states[i].sweeps[c];
  }

  function Extend(t: Trail, a: Action, i: nat): Trail {
    match a
    case ListVnis(_, _) => t.(listed := i)
    case ReadVms(_, _) => t.(vms := i)
    case ReadGateways(_, _) => t.(gateways := i)
    case GetVm(_, _) => t.(lookup := i)
    case _ => t
  }

  lemma OwnStepExtendsTrail(states: seq<State>, actions: seq<Action>, c: string, i: nat, t: Trail)
    requires Run(states, actions) && i < |actions| && c in states[i].sweeps && c in states[i + 1].sweeps
    requires OnTrail(states, actions, c, i, t)
    requires !actions[i].Environment? && actions[i].who == c
    ensures OnTrail(states, actions, c, i + 1, Extend(t, actions[i], i))
  {
    assert Step(states[i], actions[i], states[i + 1]);
    var before, after := states[i].sweeps[c], states[i + 1].sweeps[c];
    assert Moves(states[i], actions[i], before, after);
    match actions[i] {
      case ListVnis(_, _) =>
      case ReadVms(_, _) =>
      case ReadGateways(_, _) =>
      case _ =>
    }
  }

  lemma {:induction false} Provenance(states: seq<State>, actions: seq<Action>, c: string, i: nat)
    returns (t: Trail)
    requires Run(states, actions) && i < |states| && c in states[i].sweeps
    ensures OnTrail(states, actions, c, i, t)
  {
    t := Trail(0, 0, 0, 0);
    if i > 0 {
      var a := actions[i - 1];
      assert Step(states[i - 1], a, states[i]);
      t := Provenance(states, actions, c, i - 1);
      if a.Environment? || a.who != c {
        OthersKeepTrail(states, actions, c, i - 1, t);
      } else {
        OwnStepExtendsTrail(states, actions, c, i - 1, t);
        t := Extend(t, a, i - 1);
      }
    }
  }

  // ---- what no run does ----

  /** Why a delete happened: the VNI was in the last listing of that collector under a name in
      its scope, later no VM and later still no gateway named it in the lists that succeeded,
      and later still the VM of its name did not exist. */
  lemma DeletionAudit(states: seq<State>, actions: seq<Action>, i: nat, c: string, id: string)
    returns (t: Trail)
    requires Run(states, actions) && Deletes(states, actions, i, c, id)
    ensures t.listed < t.vms < t.gateways < t.lookup < i
    ensures actions[t.listed].ListVnis? && actions[t.listed].who == c
    ensures forall j :: t.listed < j < i ==> !(actions[j].ListVnis? && actions[j].who == c)
    ensures forall j :: t.listed < j <= i && c in states[j].sweeps ==> !states[j].sweeps[c].Idle?
    ensures id in states[t.listed].vnis && InScope(states[t.listed].vnis[id], c)
    ensures actions[t.vms].ReadVms? && actions[t.vms].who == c
    ensures actions[t.vms].ok ==> id !in VmMarks(states[t.vms].cluster)
    ensures actions[t.gateways].ReadGateways? && actions[t.gateways].who == c
    ensures actions[t.gateways].ok ==> id !in GatewayMarks(states[t.gateways].cluster)
    ensures actions[t.lookup] == GetVm(c, NotFound)
    ensures VmOf(states[t.listed].vnis[id], c) !in states[t.lookup].cluster.vms
  {
    t := Provenance(states, actions, c, i);
    var target := states[i].sweeps[c].target;
    assert target in [target];
  }

  ghost predicate VmListsSucceed(actions: seq<Action>, c: string, from: nat, to: nat) {
    forall j :: from <= j < to && j < |actions| && actions[j].ReadVms? && actions[j].who == c ==> actions[j].ok
  }

  ghost predicate GatewayListsSucceed(actions: seq<Action>, c: string, from: nat, to: nat) {
    forall j :: from <= j < to && j < |actions| && actions[j].ReadGateways? && actions[j].who == c ==> actions[j].ok
  }

  lemma BegunSinceIdle(states: seq<State>, actions: seq<Action>, from: nat, i: nat, c: string, id: string)
    returns (t: Trail)
    requires Run(states, actions) && from <= i && Deletes(states, actions, i, c, id)
    requires c in states[from].sweeps ==> states[from].sweeps[c].Idle?
    ensures from <= t.listed < t.vms < t.gateways < t.lookup < i
    ensures id in states[t.listed].vnis && InScope(states[t.listed].vnis[id], c)
    ensures VmOf(states[t.listed].vnis[id], c) !in states[t.lookup].cluster.vms
    ensures actions[t.lookup].GetVm? && actions[t.lookup].who == c
    ensures actions[t.vms].ReadVms? && actions[t.vms].who == c
    ensures actions[t.vms].ok ==> id !in VmMarks(states[t.vms].cluster)
    ensures actions[t.gateways].ReadGateways? && actions[t.gateways].who == c
    ensures actions[t.gateways].ok ==> id !in GatewayMarks(states[t.gateways].cluster)
  {
    t := DeletionAudit(states, actions, i, c, id);
    SweepsStay(states, actions, i, c);
    SweepsStay(states, actions, from, c);
  }

  /** From before a listing on no collector deletes a VNI that virtual machines (or that gateways)
      name whenever that collector lists them, if those lists succeed. */
  lemma NamedVniSurvives(states: seq<State>, actions: seq<Action>, from: nat, i: nat, c: string, id: string)
    requires Run(states, actions) && from <= i < |states|
    requires c in states[from].sweeps ==> states[from].sweeps[c].Idle?
    requires || (VmListsSucceed(actions, c, from, i)
                 && forall j :: from <= j < i && j < |actions| && actions[j].ReadVms? && actions[j].who == c
                                ==> id in VmMarks(states[j].cluster))
             || (GatewayListsSucceed(actions, c, from, i)
                 && forall j :: from <= j < i && j < |actions| && actions[j].ReadGateways? && actions[j].who == c
                                ==> id in GatewayMarks(states[j].cluster))
    ensures !Deletes(states, actions, i, c, id)
  {
    if Deletes(states, actions, i, c, id) {
      var t := BegunSinceIdle(states, actions, from, i, c, id);
    }
  }

  /** A VNI that did not exist at a collector's latest listing is not deleted by that sweep. */
  lemma NewVniSurvives(states: seq<State>, actions: seq<Action>, l: nat, i: nat, c: string, id: string)
    requires Run(states, actions) && l < i < |states|
    requires actions[l].ListVnis? && actions[l].who == c && actions[l].listing.Some?
    requires forall j :: l < j < i ==> !(actions[j].ListVnis? && actions[j].who == c)
    requires id !in states[l].vnis
    ensures !Deletes(states, actions, i, c, id)
  {
    if Deletes(states, actions, i, c, id) {
      var t := DeletionAudit(states, actions, i, c, id);
    }
  }

  /** A VNI that bears the untruncated name of a VM from before a listing on is kept when the VM
      exists whenever the collector looks one up, whatever the lists return. */
  lemma LegacyNameSurvives(states: seq<State>, actions: seq<Action>, from: nat, i: nat, c: string, id: string,
                           ns: string, vm: string)
    requires Run(states, actions) && from <= i < |states|
    requires c in states[from].sweeps ==> states[from].sweeps[c].Idle?
    requires ns != "" && '-' !in ns && vm != ""
    requires forall j :: from <= j <= i && id in states[j].vnis ==> states[j].vnis[id] == VniName(c, ns, vm)
    requires forall j :: from <= j < i && j < |actions| && actions[j].GetVm? && actions[j].who == c
                         ==> VmKey(ns, vm) in states[j].cluster.vms
    ensures !Deletes(states, actions, i, c, id)
  {
    if Deletes(states, actions, i, c, id) {
      var t := BegunSinceIdle(states, actions, from, i, c, id);
      ParseExact(VniName(c, ns, vm), c, ns, vm);
    }
  }

  /** Collectors with distinct dash-free ids do not delete each other's VNIs: one that carries the
      other's prefix from before a listing on is kept. */
  lemma ForeignVniSurvives(states: seq<State>, actions: seq<Action>, from: nat, i: nat,
                           c: string, other: string, id: string)
    requires Run(states, actions) && from <= i < |states|
    requires c in states[from].sweeps ==> states[from].sweeps[c].Idle?
    requires c != other && '-' !in c && '-' !in other
    requires forall j :: from <= j <= i && id in states[j].vnis ==> HasPrefix(states[j].vnis[id], Prefix(other))
    ensures !Deletes(states, actions, i, c, id)
  {
    if Deletes(states, actions, i, c, id) {
      var t := BegunSinceIdle(states, actions, from, i, c, id);
      ScopesDisjoint(other, c, states[t.listed].vnis[id]);
      ScopeMeaning(states[t.listed].vnis[id], c);
    }
  }

  // ---- the audit leaves nothing out ----

  /** A lone sweep of collector `c` over the one VNI `r`: the clusters its two lists and its lookup
      see, and whether the lists succeed. */
  datatype Stray = Stray(
    c: string, r: Resource, atVms: Cluster, atGateways: Cluster, atLookup: Cluster, vmsOk: bool, gatewaysOk: bool)
  {
    function FromVms(): set<string> {
      if vmsOk then VmMarks(atVms) else {}
    }

    function Marks(): set<string> {
      FromVms() + if gatewaysOk then GatewayMarks(atGateways) else {}
    }

    /** What the audit says of a deletion. */
    predicate Unprotected() {
      && InScope(r.name, c) && VmOf(r.name, c) !in atLookup.vms
      && (vmsOk ==> r.id !in VmMarks(atVms))
      && (gatewaysOk ==> r.id !in GatewayMarks(atGateways))
    }

    function ClusterAt(j: nat): Cluster {
      if j <= 2 then atVms else if j <= 4 then atGateways else atLookup
    }

    function ActionAt(j: nat): Action {
      match j
      case 0 => ListVnis(c, Some([r]))
      case 1 => ReadVms(c, vmsOk)
      case 3 => ReadGateways(c, gatewaysOk)
      case 5 => GetVm(c, NotFound)
      case 6 => DeleteVni(c, true)
      case _ => Environment
    }

    function SweepAt(j: nat): Sweep {
      match j
      case 0 => Idle
      case 1 => Listed([r])
      case 2 => VmsRead([r], FromVms())
      case 3 => VmsRead([r], FromVms())
      case 4 => Sweeping([r], Marks())
      case 5 => Sweeping([r], Marks())
      case 6 => Deleting(r, [], Marks())
      case _ => Sweeping([], Marks())
    }

    function StateAt(j: nat): State {
      State(ClusterAt(j), if j <= 6 then map[r.id := r.name] else map[], map[c := SweepAt(j)])
    }
  }

  lemma StrayMoves(t: Stray, j: nat)
    requires t.Unprotected() && j in {0, 1, 3, 5, 6}
    ensures Moves(t.StateAt(j), t.ActionAt(j), t.SweepAt(j), t.SweepAt(j + 1))
  {
    if j == 0 {
      assert VniListPrefix(t.c) <= Prefix(t.c) <= t.r.name;
    } else if j == 5 {
      assert [t.r][1..] == [];
    }
  }

  lemma StrayStep(t: Stray, j: nat)
    requires t.Unprotected() && j < 7
    ensures Step(t.StateAt(j), t.ActionAt(j), t.StateAt(j + 1))
  {
    if j !in {2, 4} {
      StrayMoves(t, j);
      assert map[t.r.id := t.r.name] - {t.r.id} == map[];
      SoleStep(t.StateAt(j), t.ActionAt(j), t.StateAt(j + 1), t.c, t.SweepAt(j), t.SweepAt(j + 1));
    }
  }

  /** A step of the only collector there is. */
  lemma SoleStep(s: State, a: Action, s': State, c: string, before: Sweep, after: Sweep)
    requires !a.Environment? && a.who == c && s.sweeps == map[c := before] && s'.sweeps == map[c := after]
    requires s'.cluster == s.cluster && Moves(s, a, before, after)
    requires s'.vnis == if a.DeleteVni? && a.ok then s.vnis - {before.target.id} else s.vnis
    ensures Step(s, a, s')
  {}

  /** Whatever the audit does not exclude can happen: when the VM list, if it succeeds, sees no
      machine with the id, the gateway list, if it succeeds, sees no gateway with it, and the
      lookup misses the VM of the name, a run deletes the VNI. */
  lemma DeletionPossible(t: Stray)
    returns (states: seq<State>, actions: seq<Action>)
    requires t.Unprotected()
    ensures Run(states, actions) && Deletes(states, actions, 6, t.c, t.r.id)
    ensures |actions| == 7 && forall j :: 0 <= j < 7 ==> actions[j] == t.ActionAt(j)
    ensures forall j :: 0 <= j <= 7 ==> states[j].cluster == t.ClusterAt(j)
    ensures forall j :: 0 <= j <= 7 ==> states[j].vnis == if j <= 6 then map[t.r.id := t.r.name] else map[]
  {
    states := seq(8, j requires 0 <= j < 8 => t.StateAt(j));
    actions := seq(7, j requires 0 <= j < 7 => t.ActionAt(j));
    forall j | 0 <= j < 7
      ensures Step(states[j], actions[j], states[j + 1])
    {
      StrayStep(t, j);
    }
  }

  /** Uninterrupted protection by one kind of object is needed: a VNI handed over from a gateway
      to a virtual machine between the two reads is named in every state, and is deleted. */
  lemma HandoverLosesVni(c: string, id: string)
    returns (states: seq<State>, actions: seq<Action>)
    requires id != ""
    ensures Run(states, actions) && Deletes(states, actions, 6, c, id)
    ensures VmListsSucceed(actions, c, 0, 6) && GatewayListsSucceed(actions, c, 0, 6)
    ensures forall j :: 0 <= j < |states| ==> id in VmMarks(states[j].cluster) + GatewayMarks(states[j].cluster)
  {
    var name := VniName(c, "ns", "vm");
    ParseExact(name, c, "ns", "vm");
    var gateway := CustomObject(Some(Status(map[VNI_KEY := id], map[])));
    var before := Cluster(map[], map["gw" := gateway], map[]);
    var after := Cluster(map[VmKey("ns", "other") := VirtualMachine(None, id, [])], map[], map[]);
    assert id in FieldIds(before.gateways["gw"], VNI_KEY);
    assert id in VmIds(after.vms[VmKey("ns", "other")]);
    assert id in GatewayMarks(before) && id in VmMarks(after);
    assert "other"[0] != "vm"[0];
    states, actions := DeletionPossible(Stray(c, Resource(id, name), before, after, after, true, true));
  }

  /** A failed list counts as an empty one: a VNI that a virtual machine names in every state
      is deleted when the VM list fails and the machine has another name. */
  lemma FailedListLosesVni(c: string, id: string)
    returns (states: seq<State>, actions: seq<Action>)
    requires id != ""
    ensures Run(states, actions) && Deletes(states, actions, 6, c, id)
    ensures |actions| > 1 && actions[1] == ReadVms(c, false) && GatewayListsSucceed(actions, c, 0, 6)
    ensures forall j :: 0 <= j < |states| ==> id in VmMarks(states[j].cluster)
  {
    var name := VniName(c, "ns", "vm");
    ParseExact(name, c, "ns", "vm");
    var cluster := Cluster(map[VmKey("ns", "other") := VirtualMachine(None, id, [])], map[], map[]);
    assert id in VmIds(cluster.vms[VmKey("ns", "other")]);
    assert "other"[0] != "vm"[0];
    states, actions := DeletionPossible(Stray(c, Resource(id, name), cluster, cluster, cluster, false, true));
  }

  /** VM `k` exists and names the VNI in every state, the VNI bears `name` as long as it exists, and
      collector `c` deletes it. */
  ghost predicate LosesNamed(states: seq<State>, actions: seq<Action>, i: nat, c: string, id: string, name: string,
                             k: VmKey)
  {
    && Run(states, actions) && Deletes(states, actions, i, c, id)
    && forall j :: 0 <= j < |states| ==>
                     && k in states[j].cluster.vms && id in VmIds(states[j].cluster.vms[k])
                     && (id in states[j].vnis ==> states[j].vnis[id] == name)
  }

  /** The only protection left when lists fail is the lookup: a collector can delete a VNI that an
      existing VM names in every state if and only if the VNI's name is in scope and is not parsed as
      that VM. */
  lemma LookupProtectsIff(c: string, id: string, name: string, ns: string, vm: string)
    requires id != ""
    ensures (exists states, actions, i :: LosesNamed(states, actions, i, c, id, name, VmKey(ns, vm))) <==>
            InScope(name, c) && ParseVniName(name, c) != (ns, vm)
  {
    forall states, actions, i | LosesNamed(states, actions, i, c, id, name, VmKey(ns, vm))
      ensures InScope(name, c) && ParseVniName(name, c) != (ns, vm)
    {
      var t := DeletionAudit(states, actions, i, c, id);
    }
    if InScope(name, c) && ParseVniName(name, c) != (ns, vm) {
      var states, actions := MisreadNameLost(c, id, name, ns, vm);
    }
  }

  lemma MisreadNameLost(c: string, id: string, name: string, ns: string, vm: string)
    returns (states: seq<State>, actions: seq<Action>)
    requires id != "" && InScope(name, c) && ParseVniName(name, c) != (ns, vm)
    ensures LosesNamed(states, actions, 6, c, id, name, VmKey(ns, vm))
    ensures |actions| > 1 && actions[1] == ReadVms(c, false) && GatewayListsSucceed(actions, c, 0, 6)
  {
    var k := VmKey(ns, vm);
    var cluster := Cluster(map[k := VirtualMachine(Some([id]), "", [])], map[], map[]);
    assert id in cluster.vms[k].interfaces.value && id in VmIds(cluster.vms[k]);
    var t := Stray(c, Resource(id, name), cluster, cluster, cluster, false, true);
    states, actions := DeletionPossible(t);
  }

  /** The webhook names a VNI of a VM with several networks in a way that the parser never takes for
      that VM: although the VM exists and names the VNI in its annotation in every state, the VNI is
      deleted when the VM list fails. */
  lemma MultiNetworkVniLost(c: string, id: string, ns: string, vm: string, net: string, hash: string)
    returns (states: seq<State>, actions: seq<Action>)
    requires id != "" && ns != "" && '-' !in ns && vm != "" && |hash| >= 7
    requires |FullName(c, ns, vm, Some(net))| <= MAX_NAME_LENGTH
    ensures LosesNamed(states, actions, 6, c, id, WebhookName(c, ns, vm, Some(net), hash), VmKey(ns, vm))
    ensures |actions| > 1 && actions[1] == ReadVms(c, false) && GatewayListsSucceed(actions, c, 0, 6)
  {
    NetworkTakenForVm(c, ns, vm, net, hash);
    states, actions := MisreadNameLost(c, id, WebhookName(c, ns, vm, Some(net), hash), ns, vm);
  }

  /** For every name the webhook gives: such a run exists if and only if the name is in scope and is
      not one from which the parser recovers the VM. */
  lemma WebhookVniLostIff(c: string, id: string, ns: string, vm: string, network: Option<string>, hash: string)
    requires id != "" && ns != "" && vm != "" && |hash| >= 7
    ensures var name, single := WebhookName(c, ns, vm, network, hash), VniName(c, ns, vm);
            (exists states, actions, i :: LosesNamed(states, actions, i, c, id, name, VmKey(ns, vm))) <==>
            InScope(name, c) &&
            !(&& '-' !in ns
              && (if network.None? then |single| <= MAX_NAME_LENGTH
                  else |single| == MAX_NAME_LENGTH && single[55..] == "-" + hash[..7]))
  {
    LookupProtectsIff(c, id, WebhookName(c, ns, vm, network, hash), ns, vm);
    NameRecovered(c, ns, vm, network, hash);
  }

  // ---- which collectors compete ----

  /** Collector `c` can delete a VNI named `name` throughout. */
  ghost predicate CanDelete(c: string, name: string) {
    exists states, actions, i, id :: DeletesNamed(states, actions, i, c, id, name)
  }

  ghost predicate DeletesNamed(states: seq<State>, actions: seq<Action>, i: nat, c: string, id: string, name: string) {
    && Run(states, actions) && Deletes(states, actions, i, c, id)
    && forall j :: 0 <= j < |states| && id in states[j].vnis ==> states[j].vnis[id] == name
  }

  /** It can exactly when the name is in its scope. */
  lemma CanDeleteIff(c: string, name: string)
    ensures CanDelete(c, name) <==> InScope(name, c)
  {
    forall states, actions, i, id | DeletesNamed(states, actions, i, c, id, name)
      ensures InScope(name, c)
    {
      var t := DeletionAudit(states, actions, i, c, id);
    }
    if InScope(name, c) {
      var none := Cluster(map[], map[], map[]);
      var t := Stray(c, Resource("vni", name), none, none, none, true, true);
      var states, actions := DeletionPossible(t);
        assert DeletesNamed(states, actions, 6, c, "vni", name);
    }
  }

  /** Some VNI name can be deleted by either of two collectors exactly when they have the same id or
      one id extends the other past a dash, other than by a second dash. */
  lemma CompeteIff(c1: string, c2: string)
    ensures (exists name :: CanDelete(c1, name) && CanDelete(c2, name)) <==>
            c1 == c2 || Extends(c1, c2) || Extends(c2, c1)
  {
    VniScopesOverlap(c1, c2);
    if name :| CanDelete(c1, name) && CanDelete(c2, name) {
      CanDeleteIff(c1, name);
      CanDeleteIff(c2, name);
    }
    if name :| InScope(name, c1) && InScope(name, c2) {
      CanDeleteIff(c1, name);
      CanDeleteIff(c2, name);
    }
  }
}
