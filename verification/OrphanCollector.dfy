/** One run of the orphan collector over an unchanging cluster: the marks, the four
    sweeps and what they leave in the VPC, also when reads or deletes fail. */
module OrphanCollector {
  import opened Text
  import opened VniNames
  import opened ClusterState

  /** The collector lists gateways once in each of its four sweeps. */
  datatype Purpose = ForVnis | ForFloatingIps | ForAddressRanges | ForRoutes

  datatype Lookup = Found | NotFound | Failed

  /** The Kubernetes API; each list or get is one step that may fail. */
  class KubernetesClient {
    var cluster: Cluster
    var vmListFails: bool
    var gatewayListFails: set<Purpose>
    var fipListFails: bool
    var getFails: set<VmKey>

    constructor (cluster: Cluster)
      ensures this.cluster == cluster && getFails == {}
      ensures !vmListFails && gatewayListFails == {} && !fipListFails
    {
      this.cluster := cluster;
      vmListFails, gatewayListFails, fipListFails, getFails := false, {}, false, {};
    }

    method ListVms() returns (r: Option<seq<VirtualMachine>>)
      ensures r.Some? <==> !vmListFails
      ensures r.Some? ==> forall vm :: vm in r.value <==> vm in cluster.vms.Values
    {
      if vmListFails { return None; }
      var items := ValuesOf(cluster.vms);
      r := Some(items);
    }

    method ListGateways(purpose: Purpose) returns (r: Option<seq<CustomObject>>)
      ensures r.Some? <==> purpose !in gatewayListFails
      ensures r.Some? ==> forall o :: o in r.value <==> o in cluster.gateways.Values
    {
      if purpose in gatewayListFails { return None; }
      var items := ValuesOf(cluster.gateways);
      r := Some(items);
    }

    method ListFloatingIps() returns (r: Option<seq<CustomObject>>)
      ensures r.Some? <==> !fipListFails
      ensures r.Some? ==> forall o :: o in r.value <==> o in cluster.floatingIps.Values
    {
      if fipListFails { return None; }
      var items := ValuesOf(cluster.floatingIps);
      r := Some(items);
    }

    function GetVm(key: VmKey): Lookup
      reads this
    {
      if key in getFails then Failed else if key in cluster.vms then Found else NotFound
    }
  }

  method ValuesOf<K, V(==)>(m: map<K, V>) returns (items: seq<V>)
    ensures forall v :: v in items <==> v in m.Values
  {
    items := [];
    var todo := m.Keys;
    while todo != {}
      invariant todo <= m.Keys
      invariant forall v :: v in items ==> v in m.Values
      invariant forall k :: k in m && k !in todo ==> m[k] in items
      decreases |todo|
    {
      var k :| k in todo;
      items, todo := items + [m[k]], todo - {k};
    }
  }

  datatype Resource = Resource(id: string, name: string)

  /** One kind of VPC resource, by id. `refuses` are the ids whose deletion fails. */
  class ResourceStore {
    var names: map<string, string>
    var listFails: bool
    var refuses: set<string>

    constructor (names: map<string, string>)
      ensures this.names == names && !listFails && refuses == {}
    {
      this.names, listFails, refuses := names, false, {};
    }

    /** All resources whose name starts with `prefix`, each once, in no promised order. */
    method List(prefix: string) returns (r: Option<seq<Resource>>)
      ensures r.Some? <==> !listFails
      ensures r.Some? ==> Lists(r.value, names, prefix)
    {
      if listFails { return None; }
      var items: seq<Resource> := [];
      var todo := names.Keys;
      while todo != {}
        invariant todo <= names.Keys
        invariant Lists(items, map id | id in names.Keys - todo :: names[id], prefix)
        decreases |todo|
      {
        var id :| id in todo;
        if HasPrefix(names[id], prefix) {
          items := items + [Resource(id, names[id])];
        }
        todo := todo - {id};
      }
      assert names == map id | id in names.Keys - todo :: names[id];
      r := Some(items);
    }

    method Delete(id: string) returns (ok: bool)
      modifies this`names
      ensures ok <==> id in old(names) && id !in refuses
      ensures names == if ok then old(names) - {id} else old(names)
    {
      ok := id in names && id !in refuses;
      if ok { names := names - {id}; }
    }
  }

  ghost predicate Lists(items: seq<Resource>, names: map<string, string>, prefix: string) {
    && (forall i, j :: 0 <= i < j < |items| ==> items[i].id != items[j].id)
    && (forall r :: r in items <==> r.id in names && names[r.id] == r.name && HasPrefix(r.name, prefix))
  }

  datatype RoutingTable = RoutingTable(id: string, isDefault: bool)

  class VpcClient {
    const vnis: ResourceStore
    const floatingIps: ResourceStore
    const addressRanges: ResourceStore
    var tables: Option<seq<RoutingTable>>
    var routes: map<string, ResourceStore>

    constructor (vnis: ResourceStore, floatingIps: ResourceStore, addressRanges: ResourceStore)
      ensures this.vnis == vnis && this.floatingIps == floatingIps
      ensures this.addressRanges == addressRanges && tables == None && routes == map[]
    {
      this.vnis, this.floatingIps, this.addressRanges := vnis, floatingIps, addressRanges;
      tables, routes := None, map[];
    }

    ghost predicate Valid()
      reads this
    {
      && vnis != floatingIps && vnis != addressRanges && floatingIps != addressRanges
      && (forall t :: t in routes ==> routes[t] !in {vnis, floatingIps, addressRanges})
    }
  }

  // ---- what a sweep should remove ----

  /** Ids of resources that are in scope and not marked. */
  function Unreferenced(names: map<string, string>, prefix: string, marks: set<string>): set<string> {
    set id | id in names && HasPrefix(names[id], prefix) && id !in marks
  }

  /** What is left after a sweep that tries to delete `targets`. */
  function Swept(names: map<string, string>, targets: set<string>, refuses: set<string>): map<string, string> {
    names - (targets - refuses)
  }

  /** Ids of VNIs in scope, not marked, whose virtual machine is known not to exist. */
  function OrphanVnis(names: map<string, string>, clusterId: string, marks: set<string>,
                      vms: set<VmKey>, getFails: set<VmKey>): set<string>
  {
    set id | id in names && VniIsOrphan(Resource(id, names[id]), clusterId, marks, vms, getFails)
  }

  predicate VniIsOrphan(r: Resource, clusterId: string, marks: set<string>, vms: set<VmKey>, getFails: set<VmKey>) {
    && r.id !in marks
    && InScope(r.name, clusterId)
    && var (ns, vm) := ParseVniName(r.name, clusterId); VmKey(ns, vm) !in vms + getFails
  }

  lemma OrphanAt(names: map<string, string>, r: Resource, clusterId: string, marks: set<string>,
                 vms: set<VmKey>, getFails: set<VmKey>)
    requires r.id in names && names[r.id] == r.name
    ensures r.id in OrphanVnis(names, clusterId, marks, vms, getFails) <==>
            VniIsOrphan(r, clusterId, marks, vms, getFails)
  {
    assert Resource(r.id, names[r.id]) == r;
  }

  /** The name prefix by which VNIs are listed has no dash after the cluster id. */
  function VniListPrefix(clusterId: string): string {
    if clusterId == "" then "" else "roks-" + clusterId
  }

  /** Every orphan is in the list the sweep works from. */
  lemma OrphansListed(items: seq<Resource>, names: map<string, string>, clusterId: string, marks: set<string>,
                      vms: set<VmKey>, getFails: set<VmKey>)
    requires Lists(items, names, VniListPrefix(clusterId))
    ensures forall id :: id in OrphanVnis(names, clusterId, marks, vms, getFails) ==> Resource(id, names[id]) in items
  {
    forall id | id in OrphanVnis(names, clusterId, marks, vms, getFails)
      ensures Resource(id, names[id]) in items
    {
      assert VniListPrefix(clusterId) <= Prefix(clusterId) <= names[id];
    }
  }

  /** The id of the first default routing table, or "". */
  function DefaultTable(tables: seq<RoutingTable>): string {
    if tables == [] then ""
    else if tables[0].isDefault then tables[0].id
    else DefaultTable(tables[1..])
  }

  lemma {:induction false} FirstDefault(tables: seq<RoutingTable>)
    ensures (forall j :: 0 <= j < |tables| ==> !tables[j].isDefault) ==> DefaultTable(tables) == ""
    ensures forall i :: 0 <= i < |tables| && tables[i].isDefault && (forall j :: 0 <= j < i ==> !tables[j].isDefault)
                        ==> DefaultTable(tables) == tables[i].id
    ensures (exists j :: 0 <= j < |tables| && tables[j].isDefault) ==>
              exists i :: 0 <= i < |tables| && tables[i].isDefault && forall j :: 0 <= j < i ==> !tables[j].isDefault
  {
    if tables != [] && !tables[0].isDefault {
      var rest := tables[1..];
      FirstDefault(rest);
      assert forall i :: 0 <= i < |rest| ==> rest[i] == tables[i + 1];
      assert forall i :: 1 <= i < |tables| ==> tables[i] == rest[i - 1];
      if j :| 0 <= j < |rest| && rest[j].isDefault {
        var i :| 0 <= i < |rest| && rest[i].isDefault && forall j :: 0 <= j < i ==> !rest[j].isDefault;
        assert tables[i + 1].isDefault && forall j :: 0 <= j < i + 1 ==> !tables[j].isDefault;
      }
    }
  }

  class Collector {
    const k8s: KubernetesClient
    const vpc: VpcClient
    const clusterId: string
    const vpcId: string

    constructor (k8s: KubernetesClient, vpc: VpcClient, clusterId: string, vpcId: string)
      ensures this.k8s == k8s && this.vpc == vpc && this.clusterId == clusterId && this.vpcId == vpcId
    {
      this.k8s, this.vpc, this.clusterId, this.vpcId := k8s, vpc, clusterId, vpcId;
    }

    /** The marks of the VNI sweep; a failed list contributes nothing. */
    ghost function VniMarks(): set<string>
      reads k8s
    {
      (if k8s.vmListFails then {} else VmMarks(k8s.cluster))
      + (if ForVnis in k8s.gatewayListFails then {} else GatewayMarks(k8s.cluster))
    }

    ghost function FloatingIpMarks(): set<string>
      reads k8s
    {
      (if ForFloatingIps in k8s.gatewayListFails then {} else FieldMarks(k8s.cluster.gateways, FIP_KEY))
      + (if k8s.fipListFails then {} else FieldMarks(k8s.cluster.floatingIps, FIP_KEY))
    }

    ghost function AddressRangeMarks(): set<string>
      reads k8s
    {
      if ForAddressRanges in k8s.gatewayListFails then {} else FieldMarks(k8s.cluster.gateways, PAR_KEY)
    }

    ghost function RouteMarks(): set<string>
      reads k8s
    {
      if ForRoutes in k8s.gatewayListFails then {} else ClusterState.RouteMarks(k8s.cluster)
    }

    method BuildReferencedVniSet() returns (marks: set<string>)
      ensures marks == VniMarks()
      ensures forall id ::
                id in marks <==>
                && id != ""
                && (|| (&& !k8s.vmListFails
                        && exists k ::
                             && k in k8s.cluster.vms
                             && (|| k8s.cluster.vms[k].legacyVniId == id
                                 || (&& k8s.cluster.vms[k].interfaces.Some?
                                     && exists i ::
                                          && 0 <= i < |k8s.cluster.vms[k].interfaces.value|
                                          && k8s.cluster.vms[k].interfaces.value[i] == id)))
                    || (&& ForVnis !in k8s.gatewayListFails
                        && exists k ::
                             && k in k8s.cluster.gateways && k8s.cluster.gateways[k].status.Some?
                             && "vniID" in k8s.cluster.gateways[k].status.value.strings
                             && k8s.cluster.gateways[k].status.value.strings["vniID"] == id))
    {
      marks := MarkVnis();
      VmMarksMeaning(k8s.cluster);
      FieldMarksMeaning(k8s.cluster.gateways, "vniID");
    }

    method MarkVnis() returns (marks: set<string>)
      ensures marks == VniMarks()
    {
      marks := {};
      var vms := k8s.ListVms();
      if vms.Some? {
        for i := 0 to |vms.value|
          invariant marks == set j, id | 0 <= j < i && id in VmIds(vms.value[j]) :: id
        {
          var vm := vms.value[i];
          ghost var before := marks;
          if vm.interfaces.Some? {
            for n := 0 to |vm.interfaces.value|
              invariant marks == before + ((set id | id in vm.interfaces.value[..n]) - {""})
            {
              if vm.interfaces.value[n] != "" { marks := marks + {vm.interfaces.value[n]}; }
            }
            assert vm.interfaces.value[..|vm.interfaces.value|] == vm.interfaces.value;
          }
          if vm.legacyVniId != "" { marks := marks + {vm.legacyVniId}; }
          assert marks == before + VmIds(vm);
        }
        forall id
          ensures id in marks <==> id in VmMarks(k8s.cluster)
        {
          if id in marks {
            var j :| 0 <= j < |vms.value| && id in VmIds(vms.value[j]);
            assert vms.value[j] in vms.value && vms.value[j] in k8s.cluster.vms.Values;
          }
          if id in VmMarks(k8s.cluster) {
            var k :| k in k8s.cluster.vms && id in VmIds(k8s.cluster.vms[k]);
            assert k8s.cluster.vms[k] in vms.value;
            var j :| 0 <= j < |vms.value| && vms.value[j] == k8s.cluster.vms[k];
          }
        }
      }
      var gateways := k8s.ListGateways(ForVnis);
      if gateways.Some? {
        var more := MarkField(gateways.value, VNI_KEY, k8s.cluster.gateways);
        marks := marks + more;
      }
    }

    method BuildReferencedFipSet() returns (marks: set<string>)
      ensures marks == FloatingIpMarks()
      ensures forall id ::
                id in marks <==>
                && id != ""
                && (|| (&& ForFloatingIps !in k8s.gatewayListFails
                        && exists k ::
                             && k in k8s.cluster.gateways && k8s.cluster.gateways[k].status.Some?
                             && "floatingIPID" in k8s.cluster.gateways[k].status.value.strings
                             && k8s.cluster.gateways[k].status.value.strings["floatingIPID"] == id)
                    || (&& !k8s.fipListFails
                        && exists k ::
                             && k in k8s.cluster.floatingIps && k8s.cluster.floatingIps[k].status.Some?
                             && "floatingIPID" in k8s.cluster.floatingIps[k].status.value.strings
                             && k8s.cluster.floatingIps[k].status.value.strings["floatingIPID"] == id))
    {
      marks := {};
      var gateways := k8s.ListGateways(ForFloatingIps);
      if gateways.Some? {
        marks := MarkField(gateways.value, FIP_KEY, k8s.cluster.gateways);
      }
      var fips := k8s.ListFloatingIps();
      if fips.Some? {
        var more := MarkField(fips.value, FIP_KEY, k8s.cluster.floatingIps);
        marks := marks + more;
      }
      FieldMarksMeaning(k8s.cluster.gateways, "floatingIPID");
      FieldMarksMeaning(k8s.cluster.floatingIps, "floatingIPID");
    }

    method BuildReferencedParSet() returns (marks: set<string>)
      ensures marks == AddressRangeMarks()
      ensures forall id ::
                id in marks <==>
                && id != "" && ForAddressRanges !in k8s.gatewayListFails
                && exists k ::
                     && k in k8s.cluster.gateways && k8s.cluster.gateways[k].status.Some?
                     && "publicAddressRangeID" in k8s.cluster.gateways[k].status.value.strings
                     && k8s.cluster.gateways[k].status.value.strings["publicAddressRangeID"] == id
    {
      marks := {};
      var gateways := k8s.ListGateways(ForAddressRanges);
      if gateways.Some? {
        marks := MarkField(gateways.value, PAR_KEY, k8s.cluster.gateways);
      }
      FieldMarksMeaning(k8s.cluster.gateways, "publicAddressRangeID");
    }

    method BuildReferencedRouteSet() returns (marks: set<string>)
      ensures marks == RouteMarks()
      ensures forall id ::
                id in marks <==>
                && id != "" && ForRoutes !in k8s.gatewayListFails
                && exists k ::
                     && k in k8s.cluster.gateways && k8s.cluster.gateways[k].status.Some?
                     && var lists := k8s.cluster.gateways[k].status.value.lists;
                        || ("vpcRouteIDs" in lists
                            && exists i :: 0 <= i < |lists["vpcRouteIDs"]| && lists["vpcRouteIDs"][i] == Some(id))
                        || ("ingressRouteIDs" in lists
                            && exists i ::
                                 0 <= i < |lists["ingressRouteIDs"]| && lists["ingressRouteIDs"][i] == Some(id))
    {
      marks := MarkRoutes();
      RouteMarksMeaning(k8s.cluster);
    }

    method MarkRoutes() returns (marks: set<string>)
      ensures marks == RouteMarks()
    {
      marks := {};
      var gateways := k8s.ListGateways(ForRoutes);
      if gateways.Some? {
        for i := 0 to |gateways.value|
          invariant marks == set j, id | 0 <= j < i && id in RouteIds(gateways.value[j]) :: id
        {
          marks := marks + RouteIds(gateways.value[i]);
        }
        forall id
          ensures id in marks <==> id in ClusterState.RouteMarks(k8s.cluster)
        {
          if id in marks {
            var j :| 0 <= j < |gateways.value| && id in RouteIds(gateways.value[j]);
            assert gateways.value[j] in gateways.value && gateways.value[j] in k8s.cluster.gateways.Values;
          }
          if id in ClusterState.RouteMarks(k8s.cluster) {
            var k :| k in k8s.cluster.gateways && id in RouteIds(k8s.cluster.gateways[k]);
            assert k8s.cluster.gateways[k] in gateways.value;
            var j :| 0 <= j < |gateways.value| && gateways.value[j] == k8s.cluster.gateways[k];
          }
        }
      }
    }

    ghost function VniTargets(): set<string>
      reads k8s, vpc.vnis
    {
      if vpc.vnis.listFails then {}
      else OrphanVnis(vpc.vnis.names, clusterId, VniMarks(), k8s.cluster.vms.Keys, k8s.getFails)
    }

    ghost function FipTargets(): set<string>
      reads k8s, vpc.floatingIps
    {
      if vpc.floatingIps.listFails then {}
      else Unreferenced(vpc.floatingIps.names, Prefix(clusterId), FloatingIpMarks())
    }

    ghost function ParTargets(): set<string>
      reads k8s, vpc.addressRanges
    {
      if vpcId == "" || vpc.addressRanges.listFails then {}
      else Unreferenced(vpc.addressRanges.names, Prefix(clusterId), AddressRangeMarks())
    }

    /** The store of the default routing table's routes, when the sweep gets that far. */
    ghost function RouteStore(): Option<ResourceStore>
      reads vpc
    {
      if vpcId == "" || vpc.tables.None? then None
      else
        var t := DefaultTable(vpc.tables.value);
        if t == "" || t !in vpc.routes then None else Some(vpc.routes[t])
    }

    ghost function RouteTargets(store: ResourceStore): set<string>
      reads k8s, store
    {
      if store.listFails then {} else Unreferenced(store.names, Prefix(clusterId), RouteMarks())
    }

    /** What the VNI sweep is to delete: unmarked VNIs with a name made of the cluster id, a dash-free
        namespace and the name of a virtual machine that is known not to exist. */
    lemma VniTargetsMeaning()
      ensures forall id ::
                id in VniTargets() <==>
                && !vpc.vnis.listFails && id in vpc.vnis.names && id !in VniMarks()
                && exists ns, vm ::
                     && VmKey(ns, vm) !in k8s.cluster.vms && VmKey(ns, vm) !in k8s.getFails
                     && ns != "" && '-' !in ns && vm != ""
                     && vpc.vnis.names[id] == "roks-" + clusterId + "-" + ns + "-" + vm
    {
      var names := vpc.vnis.names;
      forall id | id in names
        ensures VniIsOrphan(Resource(id, names[id]), clusterId, VniMarks(), k8s.cluster.vms.Keys, k8s.getFails) <==>
                && id !in VniMarks()
                && exists ns, vm ::
                     && VmKey(ns, vm) !in k8s.cluster.vms && VmKey(ns, vm) !in k8s.getFails
                     && ns != "" && '-' !in ns && vm != ""
                     && names[id] == "roks-" + clusterId + "-" + ns + "-" + vm
      {
        var (ns, vm) := ParseVniName(names[id], clusterId);
        if InScope(names[id], clusterId) {
          ParseExact(names[id], clusterId, ns, vm);
        }
        forall ns, vm | && ns != "" && '-' !in ns && vm != ""
                        && names[id] == "roks-" + clusterId + "-" + ns + "-" + vm
          ensures ParseVniName(names[id], clusterId) == (ns, vm)
        {
          ParseExact(names[id], clusterId, ns, vm);
        }
      }
    }

    /** What the other sweeps are to delete: unmarked resources whose name starts with the cluster id. */
    lemma AddressTargetsMeaning()
      ensures forall id ::
                id in FipTargets() <==>
                && !vpc.floatingIps.listFails && id in vpc.floatingIps.names && id !in FloatingIpMarks()
                && "roks-" + clusterId + "-" <= vpc.floatingIps.names[id]
      ensures forall id ::
                id in ParTargets() <==>
                && vpcId != "" && !vpc.addressRanges.listFails
                && id in vpc.addressRanges.names && id !in AddressRangeMarks()
                && "roks-" + clusterId + "-" <= vpc.addressRanges.names[id]
      ensures RouteStore().Some? ==>
                forall id ::
                  id in RouteTargets(RouteStore().value) <==>
                  && !RouteStore().value.listFails
                  && id in RouteStore().value.names && id !in RouteMarks()
                  && "roks-" + clusterId + "-" <= RouteStore().value.names[id]
    {}

    /** The store swept for routes is that of the first default routing table, when there is a VPC, the
        tables can be listed, there is one with an id and its routes can be had. */
    lemma RouteStoreMeaning(s: ResourceStore)
      ensures RouteStore() == Some(s) <==>
              && vpcId != "" && vpc.tables.Some?
              && exists i ::
                   && 0 <= i < |vpc.tables.value| && vpc.tables.value[i].isDefault
                   && (forall j :: 0 <= j < i ==> !vpc.tables.value[j].isDefault)
                   && var t := vpc.tables.value[i].id; t != "" && t in vpc.routes && vpc.routes[t] == s
    {
      if vpc.tables.Some? {
        FirstDefault(vpc.tables.value);
      }
    }

    method CollectOrphanedVnis() returns (count: nat)
      modifies vpc.vnis`names
      ensures vpc.vnis.names == Swept(old(vpc.vnis.names), old(VniTargets()), vpc.vnis.refuses)
      ensures count == |old(VniTargets()) - vpc.vnis.refuses|
    {
      count := 0;
      var listed := vpc.vnis.List(VniListPrefix(clusterId));
      if listed.None? { return; }
      var items := listed.value;
      var marks := BuildReferencedVniSet();
      ghost var orphans := VniTargets();
      OrphansListed(items, vpc.vnis.names, clusterId, marks, k8s.cluster.vms.Keys, k8s.getFails);
      forall r | r in items
        ensures r.id in orphans <==> VniIsOrphan(r, clusterId, marks, k8s.cluster.vms.Keys, k8s.getFails)
      {
        OrphanAt(vpc.vnis.names, r, clusterId, marks, k8s.cluster.vms.Keys, k8s.getFails);
      }
      count := DeleteOrphanVnis(items, marks, orphans);
    }

    /** `orphans` holds the ids of exactly those items the VNI sweep should delete. */
    ghost predicate Decides(orphans: set<string>, items: seq<Resource>, marks: set<string>)
      reads k8s
    {
      forall r {:trigger VniIsOrphan(r, clusterId, marks, k8s.cluster.vms.Keys, k8s.getFails)} :: r in items ==>
        (r.id in orphans <==> VniIsOrphan(r, clusterId, marks, k8s.cluster.vms.Keys, k8s.getFails))
    }

    /** The checks of one iteration: the marks, the name and the virtual machine. */
    method IsOrphan(r: Resource, marks: set<string>, ghost orphans: set<string>, ghost items: seq<Resource>)
      returns (orphan: bool)
      requires r in items && Decides(orphans, items, marks)
      ensures orphan <==> r.id in orphans
    {
      assert r.id in orphans <==> VniIsOrphan(r, clusterId, marks, k8s.cluster.vms.Keys, k8s.getFails);
      if r.id in marks { return false; }
      var (ns, vm) := ParseVniName(r.name, clusterId);
      if ns == "" || vm == "" { return false; }
      var found := k8s.GetVm(VmKey(ns, vm));
      if found.Found? { return false; }
      if found.Failed? { return false; }
      return true;
    }

    method DeleteOrphanVnis(items: seq<Resource>, marks: set<string>, ghost orphans: set<string>)
      returns (count: nat)
      requires forall i, j :: 0 <= i < j < |items| ==> items[i].id != items[j].id
      requires forall r :: r in items ==> r.id in vpc.vnis.names
      requires Decides(orphans, items, marks)
      requires forall id :: id in orphans ==>
                 id in vpc.vnis.names && Resource(id, vpc.vnis.names[id]) in items
      modifies vpc.vnis`names
      ensures vpc.vnis.names == old(vpc.vnis.names) - (orphans - vpc.vnis.refuses)
      ensures count == |orphans - vpc.vnis.refuses|
    {
      count := 0;
      ghost var before := vpc.vnis.names;
      ghost var doomed := orphans - vpc.vnis.refuses;
      ghost var removed: set<string> := {};
      for i := 0 to |items|
        invariant Progress(items, i, doomed, removed)
        invariant vpc.vnis.names == before - removed
        invariant count == |removed|
      {
        var r := items[i];
        assert r in items;
        ProgressStep(items, i, doomed, removed);
        RemoveOneMore(before, removed, r.id);
        var orphan := IsOrphan(r, marks, orphans, items);
        if !orphan { continue; }
        var ok := vpc.vnis.Delete(r.id);
        if !ok { continue; }
        count := count + 1;
        removed := removed + {r.id};
      }
      ProgressEnd(items, before, doomed, removed);
    }

    method CollectOrphanedFloatingIps() returns (count: nat)
      modifies vpc.floatingIps`names
      ensures vpc.floatingIps.names
              == Swept(old(vpc.floatingIps.names), old(FipTargets()), vpc.floatingIps.refuses)
      ensures count == |old(FipTargets()) - vpc.floatingIps.refuses|
    {
      count := 0;
      var listed := vpc.floatingIps.List("");
      if listed.None? { return; }
      var marks := BuildReferencedFipSet();
      count := DeleteUnreferenced(vpc.floatingIps, listed.value, Prefix(clusterId), marks);
    }

    method CollectOrphanedPars() returns (count: nat)
      modifies vpc.addressRanges`names
      ensures vpc.addressRanges.names
              == Swept(old(vpc.addressRanges.names), old(ParTargets()), vpc.addressRanges.refuses)
      ensures count == |old(ParTargets()) - vpc.addressRanges.refuses|
    {
      count := 0;
      if vpcId == "" { return; }
      var listed := vpc.addressRanges.List("");
      if listed.None? { return; }
      var marks := BuildReferencedParSet();
      count := DeleteUnreferenced(vpc.addressRanges, listed.value, Prefix(clusterId), marks);
    }

    method CollectOrphanedVpcRoutes() returns (count: nat)
      modifies (set t | t in vpc.routes :: vpc.routes[t])`names
      ensures RouteStore().None? ==> count == 0
      ensures forall t :: t in vpc.routes && RouteStore() != Some(vpc.routes[t]) ==> unchanged(vpc.routes[t])
      ensures RouteStore().Some? ==>
                var s := RouteStore().value;
                && s.names == Swept(old(s.names), old(RouteTargets(s)), s.refuses)
                && count == |old(RouteTargets(s)) - s.refuses|
    {
      count := 0;
      if vpcId == "" { return; }
      if vpc.tables.None? { return; }
      var tables := vpc.tables.value;
      var defaultId := "";
      for i := 0 to |tables|
        invariant defaultId == ""
        invariant DefaultTable(tables) == DefaultTable(tables[i..])
      {
        if tables[i].isDefault {
          defaultId := tables[i].id;
          break;
        }
      }
      assert defaultId == DefaultTable(tables);
      if defaultId == "" { return; }
      if defaultId !in vpc.routes { return; }
      var store := vpc.routes[defaultId];
      var listed := store.List("");
      if listed.None? { return; }
      var marks := BuildReferencedRouteSet();
      count := DeleteUnreferenced(store, listed.value, Prefix(clusterId), marks);
    }

    /** A whole run. The four sweeps read the same cluster and touch disjoint stores, so each
        store ends as if its own sweep had run alone. The grace period changes nothing. */
    method Collect(gracePeriod: nat) returns (vnis: nat, fips: nat, pars: nat, routes: nat)
      requires vpc.Valid()
      modifies vpc.vnis`names, vpc.floatingIps`names, vpc.addressRanges`names
      modifies (set t | t in vpc.routes :: vpc.routes[t])`names
      ensures vpc.vnis.names == Swept(old(vpc.vnis.names), old(VniTargets()), vpc.vnis.refuses)
      ensures vnis == |old(VniTargets()) - vpc.vnis.refuses|
      ensures vpc.floatingIps.names
              == Swept(old(vpc.floatingIps.names), old(FipTargets()), vpc.floatingIps.refuses)
      ensures fips == |old(FipTargets()) - vpc.floatingIps.refuses|
      ensures vpc.addressRanges.names
              == Swept(old(vpc.addressRanges.names), old(ParTargets()), vpc.addressRanges.refuses)
      ensures pars == |old(ParTargets()) - vpc.addressRanges.refuses|
      ensures RouteStore().Some? ==>
                var s := RouteStore().value;
                && s.names == Swept(old(s.names), old(RouteTargets(s)), s.refuses)
                && routes == |old(RouteTargets(s)) - s.refuses|
      ensures RouteStore().None? ==> routes == 0
    {
      RouteStoreApart();
      vnis, fips, pars := CollectAddresses();
      label addresses:
      routes := CollectOrphanedVpcRoutes();
      assert unchanged@addresses(vpc.vnis, vpc.floatingIps, vpc.addressRanges);
    }

    lemma RouteStoreApart()
      requires vpc.Valid()
      ensures RouteStore().Some? ==> RouteStore().value !in {vpc.vnis, vpc.floatingIps, vpc.addressRanges}
    {}

    twostate lemma VnisDone()
      requires unchanged(k8s) && vpc.vnis.listFails == old(vpc.vnis.listFails)
      requires vpc.vnis.names == Swept(old(vpc.vnis.names), old(VniTargets()), vpc.vnis.refuses)
      requires old(VniTargets()) * vpc.vnis.refuses == {}
      ensures VniTargets() == {}
    {
      VniSweepTwice(old(vpc.vnis.names), clusterId, VniMarks(), k8s.cluster.vms.Keys, k8s.getFails, vpc.vnis.refuses, {});
    }

    twostate lemma FloatingIpsDone()
      requires unchanged(k8s) && vpc.floatingIps.listFails == old(vpc.floatingIps.listFails)
      requires vpc.floatingIps.names == Swept(old(vpc.floatingIps.names), old(FipTargets()), vpc.floatingIps.refuses)
      requires old(FipTargets()) * vpc.floatingIps.refuses == {}
      ensures FipTargets() == {}
    {
      SweepTwice(old(vpc.floatingIps.names), Prefix(clusterId), FloatingIpMarks(), vpc.floatingIps.refuses, {});
    }

    twostate lemma AddressRangesDone()
      requires unchanged(k8s) && vpc.addressRanges.listFails == old(vpc.addressRanges.listFails)
      requires vpc.addressRanges.names
               == Swept(old(vpc.addressRanges.names), old(ParTargets()), vpc.addressRanges.refuses)
      requires old(ParTargets()) * vpc.addressRanges.refuses == {}
      ensures ParTargets() == {}
    {
      SweepTwice(old(vpc.addressRanges.names), Prefix(clusterId), AddressRangeMarks(), vpc.addressRanges.refuses, {});
    }

    twostate lemma RoutesDone(s: ResourceStore)
      requires unchanged(k8s) && s.listFails == old(s.listFails)
      requires s.names == Swept(old(s.names), old(RouteTargets(s)), s.refuses)
      requires old(RouteTargets(s)) * s.refuses == {}
      ensures RouteTargets(s) == {}
    {
      SweepTwice(old(s.names), Prefix(clusterId), RouteMarks(), s.refuses, {});
    }

    /** A run after which nothing is left to delete, unless a target refused its deletion. */
    method CollectAll(gracePeriod: nat)
      requires vpc.Valid()
      modifies vpc.vnis`names, vpc.floatingIps`names, vpc.addressRanges`names
      modifies (set t | t in vpc.routes :: vpc.routes[t])`names
      ensures old(VniTargets()) * vpc.vnis.refuses == {} ==> VniTargets() == {}
      ensures old(FipTargets()) * vpc.floatingIps.refuses == {} ==> FipTargets() == {}
      ensures old(ParTargets()) * vpc.addressRanges.refuses == {} ==> ParTargets() == {}
      ensures RouteStore().Some? && old(RouteTargets(RouteStore().value)) * RouteStore().value.refuses == {}
              ==> RouteTargets(RouteStore().value) == {}
    {
      ghost var store := RouteStore();
      var vnis, fips, pars, routes := Collect(gracePeriod);
      assert RouteStore() == store;
      if old(VniTargets()) * vpc.vnis.refuses == {} { VnisDone(); }
      if old(FipTargets()) * vpc.floatingIps.refuses == {} { FloatingIpsDone(); }
      if old(ParTargets()) * vpc.addressRanges.refuses == {} { AddressRangesDone(); }
      if store.Some? && old(RouteTargets(store.value)) * store.value.refuses == {} { RoutesDone(store.value); }
    }

    /** Two runs, one after the other: when no target of the first refuses its deletion, the second
        deletes nothing. */
    method CollectTwice(gracePeriod: nat) returns (vnis: nat, fips: nat, pars: nat, routes: nat)
      requires vpc.Valid()
      modifies vpc.vnis`names, vpc.floatingIps`names, vpc.addressRanges`names
      modifies (set t | t in vpc.routes :: vpc.routes[t])`names
      ensures old(VniTargets()) * vpc.vnis.refuses == {} ==> vnis == 0
      ensures old(FipTargets()) * vpc.floatingIps.refuses == {} ==> fips == 0
      ensures old(ParTargets()) * vpc.addressRanges.refuses == {} ==> pars == 0
      ensures RouteStore().Some? && old(RouteTargets(RouteStore().value)) * RouteStore().value.refuses == {}
              ==> routes == 0
    {
      ghost var store := RouteStore();
      CollectAll(gracePeriod);
      assert RouteStore() == store;
      vnis, fips, pars, routes := Collect(gracePeriod);
      assert RouteStore() == store;
    }

    /** The three sweeps before the routes. */
    method CollectAddresses() returns (vnis: nat, fips: nat, pars: nat)
      requires vpc.Valid()
      modifies vpc.vnis`names, vpc.floatingIps`names, vpc.addressRanges`names
      ensures vpc.vnis.names == Swept(old(vpc.vnis.names), old(VniTargets()), vpc.vnis.refuses)
      ensures vnis == |old(VniTargets()) - vpc.vnis.refuses|
      ensures vpc.floatingIps.names
              == Swept(old(vpc.floatingIps.names), old(FipTargets()), vpc.floatingIps.refuses)
      ensures fips == |old(FipTargets()) - vpc.floatingIps.refuses|
      ensures vpc.addressRanges.names
              == Swept(old(vpc.addressRanges.names), old(ParTargets()), vpc.addressRanges.refuses)
      ensures pars == |old(ParTargets()) - vpc.addressRanges.refuses|
    {
      vnis := CollectOrphanedVnis();
      assert FipTargets() == old(FipTargets()) && ParTargets() == old(ParTargets());
      fips := CollectOrphanedFloatingIps();
      assert ParTargets() == old(ParTargets());
      pars := CollectOrphanedPars();
    }
  }

  /** The ids the objects carry under `key`, gathered object by object. */
  method MarkField(items: seq<CustomObject>, key: string, ghost objects: map<string, CustomObject>)
    returns (marks: set<string>)
    requires forall o :: o in items <==> o in objects.Values
    ensures marks == FieldMarks(objects, key)
  {
    marks := {};
    for i := 0 to |items|
      invariant marks == set j, id | 0 <= j < i && id in FieldIds(items[j], key) :: id
    {
      var o := items[i];
      if o.status.None? || key !in o.status.value.strings {
        assert FieldIds(o, key) == {};
        continue;
      }
      var id := o.status.value.strings[key];
      if id != "" { marks := marks + {id}; }
      assert FieldIds(o, key) == if id != "" then {id} else {};
    }
    forall id
      ensures id in marks <==> id in FieldMarks(objects, key)
    {
      if id in marks {
        var j :| 0 <= j < |items| && id in FieldIds(items[j], key);
        assert items[j] in items && items[j] in objects.Values;
      }
      if id in FieldMarks(objects, key) {
        var k :| k in objects && id in FieldIds(objects[k], key);
        assert objects[k] in items;
        var j :| 0 <= j < |items| && items[j] == objects[k];
      }
    }
  }

  /** The loop shared by the floating IP, address range and route sweeps. */
  method DeleteUnreferenced(store: ResourceStore, items: seq<Resource>, prefix: string, marks: set<string>)
    returns (count: nat)
    requires Lists(items, store.names, "")
    modifies store`names
    ensures store.names == Swept(old(store.names), Unreferenced(old(store.names), prefix, marks), store.refuses)
    ensures count == |Unreferenced(old(store.names), prefix, marks) - store.refuses|
  {
    ghost var targets := Unreferenced(store.names, prefix, marks);
    forall id | id in targets
      ensures Resource(id, store.names[id]) in items
    {}
    count := DeleteListed(store, items, prefix, marks, targets - store.refuses);
  }

  method DeleteListed(store: ResourceStore, items: seq<Resource>, prefix: string, marks: set<string>,
                      ghost doomed: set<string>)
    returns (count: nat)
    requires forall i, j :: 0 <= i < j < |items| ==> items[i].id != items[j].id
    requires forall r :: r in items ==> r.id in store.names
    requires forall r :: r in items ==>
               (r.id in doomed <==> HasPrefix(r.name, prefix) && r.id !in marks && r.id !in store.refuses)
    requires forall id :: id in doomed ==> id in store.names && Resource(id, store.names[id]) in items
    modifies store`names
    ensures store.names == old(store.names) - doomed
    ensures count == |doomed|
  {
    count := 0;
    ghost var before := store.names;
    ghost var removed: set<string> := {};
    for i := 0 to |items|
      invariant Progress(items, i, doomed, removed)
      invariant store.names == before - removed
      invariant count == |removed|
    {
      var r := items[i];
      assert r in items;
      ProgressStep(items, i, doomed, removed);
      RemoveOneMore(before, removed, r.id);
      if !HasPrefix(r.name, prefix) { continue; }
      if r.id in marks { continue; }
      var ok := store.Delete(r.id);
      if !ok { continue; }
      count := count + 1;
      removed := removed + {r.id};
    }
    ProgressEnd(items, before, doomed, removed);
  }

  /** After `i` items a sweep has removed those of them that are doomed. */
  ghost predicate Progress(items: seq<Resource>, i: nat, doomed: set<string>, removed: set<string>) {
    && removed <= doomed
    && (forall j :: 0 <= j < i && j < |items| && items[j].id in doomed ==> items[j].id in removed)
    && (forall j :: i <= j < |items| ==> items[j].id !in removed)
  }

  lemma ProgressStep(items: seq<Resource>, i: nat, doomed: set<string>, removed: set<string>)
    requires i < |items| && Progress(items, i, doomed, removed)
    requires forall i, j :: 0 <= i < j < |items| ==> items[i].id != items[j].id
    ensures items[i].id !in removed
    ensures Progress(items, i + 1, doomed, if items[i].id in doomed then removed + {items[i].id} else removed)
  {}

  lemma RemoveOneMore(names: map<string, string>, removed: set<string>, id: string)
    ensures names - removed - {id} == names - (removed + {id})
  {}

  lemma ProgressEnd(items: seq<Resource>, names: map<string, string>, doomed: set<string>, removed: set<string>)
    requires Progress(items, |items|, doomed, removed)
    requires forall id :: id in doomed ==> id in names && Resource(id, names[id]) in items
    ensures removed == doomed
  {
    forall id | id in doomed
      ensures id in removed
    {
      var j :| 0 <= j < |items| && items[j] == Resource(id, names[id]);
    }
  }

  // ---- what the sweeps promise together ----

  /** Two sweeps over the same marks remove exactly the unreferenced resources that did not
      refuse both times, and their counts add up to that; so when the first sweep meets no
      refusal the second removes nothing. */
  lemma SweepTwice(names: map<string, string>, prefix: string, marks: set<string>,
                   refuses1: set<string>, refuses2: set<string>)
    ensures var first := Unreferenced(names, prefix, marks);
            var middle := Swept(names, first, refuses1);
            var second := Unreferenced(middle, prefix, marks);
            && Swept(middle, second, refuses2) == Swept(names, first, refuses1 * refuses2)
            && |first - refuses1| + |second - refuses2| == |first - refuses1 * refuses2|
            && (first * refuses1 == {} ==> second == {})
  {
    var first := Unreferenced(names, prefix, marks);
    var middle := Swept(names, first, refuses1);
    var second := Unreferenced(middle, prefix, marks);
    assert second == first * refuses1;
    Retried(names, first, refuses1, refuses2);
  }

  lemma VniSweepTwice(names: map<string, string>, clusterId: string, marks: set<string>,
                      vms: set<VmKey>, getFails: set<VmKey>, refuses1: set<string>, refuses2: set<string>)
    ensures var first := OrphanVnis(names, clusterId, marks, vms, getFails);
            var middle := Swept(names, first, refuses1);
            var second := OrphanVnis(middle, clusterId, marks, vms, getFails);
            && Swept(middle, second, refuses2) == Swept(names, first, refuses1 * refuses2)
            && |first - refuses1| + |second - refuses2| == |first - refuses1 * refuses2|
            && (first * refuses1 == {} ==> second == {})
  {
    var first := OrphanVnis(names, clusterId, marks, vms, getFails);
    var middle := Swept(names, first, refuses1);
    var second := OrphanVnis(middle, clusterId, marks, vms, getFails);
    forall id
      ensures id in second <==> id in first * refuses1
    {
      if id in middle {
        assert Resource(id, middle[id]) == Resource(id, names[id]);
      }
    }
    assert second == first * refuses1;
    Retried(names, first, refuses1, refuses2);
  }

  lemma Retried(names: map<string, string>, first: set<string>, refuses1: set<string>, refuses2: set<string>)
    ensures Swept(Swept(names, first, refuses1), first * refuses1, refuses2)
            == Swept(names, first, refuses1 * refuses2)
    ensures |first - refuses1| + |first * refuses1 - refuses2| == |first - refuses1 * refuses2|
  {
    assert first - refuses1 * refuses2 == (first - refuses1) + (first * refuses1 - refuses2);
    assert (first - refuses1) !! (first * refuses1 - refuses2);
  }
}
