/** What the orphan collector reads from Kubernetes, with annotations and object
    statuses already decoded, and the ids those objects protect from collection. */
module ClusterState {
  import opened Text

  datatype VmKey = VmKey(ns: string, name: string)

  /** `interfaces` holds the VNI ids of the network-interfaces annotation; it is None when
      the annotation is absent or is not the expected JSON. `legacyVniId` is "" when absent. `fipIds`
      holds the ids of the floating IPs its annotations record. */
  datatype VirtualMachine = VirtualMachine(interfaces: Option<seq<string>>, legacyVniId: string, fipIds: seq<string>)

  /** The string and the list entries of a status; list elements that are not strings are None. */
  datatype Status = Status(strings: map<string, string>, lists: map<string, seq<Option<string>>>)

  /** A VPCGateway or a FloatingIP object. */
  datatype CustomObject = CustomObject(status: Option<Status>)

  datatype Cluster = Cluster(
    vms: map<VmKey, VirtualMachine>,
    gateways: map<string, CustomObject>,
    floatingIps: map<string, CustomObject>)

  const VNI_KEY := "vniID"
  const FIP_KEY := "floatingIPID"
  const PAR_KEY := "publicAddressRangeID"
  const VPC_ROUTES_KEY := "vpcRouteIDs"
  const INGRESS_ROUTES_KEY := "ingressRouteIDs"

  function VmIds(vm: VirtualMachine): set<string> {
    ((if vm.interfaces.Some? then set id | id in vm.interfaces.value else {}) + {vm.legacyVniId}) - {""}
  }

  function FieldIds(o: CustomObject, key: string): set<string> {
    (if o.status.Some? && key in o.status.value.strings then {o.status.value.strings[key]} else {}) - {""}
  }

  function ListIds(o: CustomObject, key: string): set<string> {
    (if o.status.Some? && key in o.status.value.lists
     then set x | x in o.status.value.lists[key] && x.Some? :: x.value else {}) - {""}
  }

  function RouteIds(o: CustomObject): set<string> {
    ListIds(o, VPC_ROUTES_KEY) + ListIds(o, INGRESS_ROUTES_KEY)
  }

  /** Ids named by some virtual machine. */
  function VmMarks(c: Cluster): set<string> {
    set k, id | k in c.vms && id in VmIds(c.vms[k]) :: id
  }

  /** Ids the objects carry under one status key. */
  function FieldMarks(objects: map<string, CustomObject>, key: string): set<string> {
    set k, id | k in objects && id in FieldIds(objects[k], key) :: id
  }

  function GatewayMarks(c: Cluster): set<string> {
    FieldMarks(c.gateways, VNI_KEY)
  }

  function RouteMarks(c: Cluster): set<string> {
    set k, id | k in c.gateways && id in RouteIds(c.gateways[k]) :: id
  }

  // ---- what the marks are, in terms of the objects ----

  /** The VM's annotations name the VNI: one of its interfaces or the legacy id. */
  ghost predicate Names(vm: VirtualMachine, id: string) {
    || vm.legacyVniId == id
    || (vm.interfaces.Some? && exists i :: 0 <= i < |vm.interfaces.value| && vm.interfaces.value[i] == id)
  }

  /** The status has `id` under `key`. */
  ghost predicate Says(o: CustomObject, key: string, id: string) {
    o.status.Some? && key in o.status.value.strings && o.status.value.strings[key] == id
  }

  /** The list `key` of the status has the element `id`. */
  ghost predicate Holds(o: CustomObject, key: string, id: string) {
    && o.status.Some? && key in o.status.value.lists
    && exists i :: 0 <= i < |o.status.value.lists[key]| && o.status.value.lists[key][i] == Some(id)
  }

  lemma VmMarksMeaning(c: Cluster)
    ensures forall id :: id in VmMarks(c) <==> id != "" && exists k :: k in c.vms && Names(c.vms[k], id)
  {
    forall k, id | k in c.vms
      ensures id in VmIds(c.vms[k]) <==> id != "" && Names(c.vms[k], id)
    {}
  }

  lemma FieldMarksMeaning(objects: map<string, CustomObject>, key: string)
    ensures forall id ::
              id in FieldMarks(objects, key) <==> id != "" && exists k :: k in objects && Says(objects[k], key, id)
  {
    forall k, id | k in objects
      ensures id in FieldIds(objects[k], key) <==> id != "" && Says(objects[k], key, id)
    {}
  }

  lemma ListIdsMeaning(o: CustomObject, key: string, id: string)
    ensures id in ListIds(o, key) <==> id != "" && Holds(o, key, id)
  {
    if o.status.Some? && key in o.status.value.lists {
      var list := o.status.value.lists[key];
      if id in ListIds(o, key) {
        assert Some(id) in list;
      }
      if i :| 0 <= i < |list| && list[i] == Some(id) {
        assert Some(id) in list;
      }
    }
  }

  lemma RouteMarksMeaning(c: Cluster)
    ensures forall id :: id in RouteMarks(c) <==> id != "" && exists k :: k in c.gateways && HoldsRoute(c.gateways[k], id)
  {
    forall k, id | k in c.gateways
      ensures id in RouteIds(c.gateways[k]) <==> id != "" && HoldsRoute(c.gateways[k], id)
    {
      ListIdsMeaning(c.gateways[k], "vpcRouteIDs", id);
      ListIdsMeaning(c.gateways[k], "ingressRouteIDs", id);
    }
  }

  ghost predicate HoldsRoute(o: CustomObject, id: string) {
    Holds(o, "vpcRouteIDs", id) || Holds(o, "ingressRouteIDs", id)
  }

  /** The statuses of FloatingIP objects have only keys of the CRD's status type, which publishes the
      address id under "fipID". */
  ghost predicate CrdStatuses(c: Cluster) {
    forall k :: k in c.floatingIps && c.floatingIps[k].status.Some? ==>
                  c.floatingIps[k].status.value.strings.Keys
                  <= {"syncStatus", "fipID", "address", "targetVNIID", "lastSyncTime", "message"}
  }

  ghost predicate Publishes(c: Cluster, id: string) {
    exists k :: && k in c.floatingIps && c.floatingIps[k].status.Some?
                && "fipID" in c.floatingIps[k].status.value.strings
                && c.floatingIps[k].status.value.strings["fipID"] == id
  }

  /** Such objects protect no address: the collector reads another key. */
  lemma CrdStatusesProtectNothing(c: Cluster)
    requires CrdStatuses(c)
    ensures FieldMarks(c.floatingIps, FIP_KEY) == {}
  {
    assert FIP_KEY[0] == 'f' && FIP_KEY[1] == 'l' && "fipID"[1] == 'i';
    assert "syncStatus"[0] == 's' && "address"[0] == 'a' && "targetVNIID"[0] == 't';
    assert "lastSyncTime"[0] == 'l' && "message"[0] == 'm';
  }
}
