# Verified model of the ROKS VPC network operator and its console plugin

This project models six pieces of logic of the repository and proves properties of them.

* **Orphan collector** (`VniNames`, `ClusterState`, `OrphanCollector`, `SweepProtocol`,
  `UndisturbedSweep`, `AddressSweepProtocol`, `GracePeriod`). The classes of `OrphanCollector`
  follow one run of the collector loop by loop: the four mark sets, the four sweeps and what they
  leave in the VPC, also when lists, lookups or deletes fail. `SweepProtocol` takes the same VNI
  sweep apart into steps of any number of collectors, between which Kubernetes and the VPC may
  change in any way. `UndisturbedSweep` proves that a sweep of the protocol that nothing interrupts
  ends exactly where the sequential one does. `AddressSweepProtocol` does for floating IPs, address
  ranges and routes what `SweepProtocol` does for VNIs. `GracePeriod` adds the time at which each state of a run is reached.
* **Topology** (`TopologyData`, `Traversal`, `Hierarchy`, `HierarchyProperties`, `Visibility`). The
  breadth-first search with its duplicate-carrying queue, the two-pass transform and the filter
  pipeline of the viewer.
* **CIDR and VLAN checks** (`Bits`, `Cidr`, `SubnetValidation`, `Vlan`). JavaScript's 32-bit
  operators are written out on integers; CIDR notation is that of section 3.1 of RFC 4632.
* **API rate limiter** (`RateLimiter`, `LimiterProtocol`). The channel as a counter in a class, and
  any number of concurrent calls as a state machine, with the nested call by which creating a VNI
  renames it.
* **Fetch hook** (`FetchHook`). Effect runs, cleanups and late answers in any order.
* **Selector parser and deep copies** (`NodeSelector`, `DeepCopy`, `CopyWrites`). A split/join round
  trip, and heap separation of a copied slice of router networks: `CopyWrites` has the assignments
  that Go's types allow through a slice, of plain values, new structures, nil and pointers or slices
  that another field holds, and proves what any sequence or interleaving of them leaves alone.

`Text` holds the string operations shared by the parsers.

Every loop of the source that is modelled is a method proved against a specification function or
against the property itself; what the source promises is then proved about the specification.

## Where the code does less than its documentation or its shape suggests

The model follows the code. Each point below is proved of the model; most come with the exact
condition under which the expected property holds.

* The grace period documented in `docs/admin-guide/configuration.md` has no effect. The manager sets
  none (`roks-vpc-network-operator/cmd/manager/main.go:297-302`), for which the collector takes 15
  minutes and then ignores them (`roks-vpc-network-operator/pkg/gc/orphan_collector.go:57-60` and
  `:113-115`). Every run respects a grace period if and only if there is none (`GraceRespectedIff`),
  which only a negative value would give (`ConfiguredRespectedIff`); a sweep of any length deletes a
  VNI whose VM vanished just before the lookup (`YoungOrphanDeleted`).
* A failed list counts as an empty one while marks are gathered, so a VNI that a VM names all the
  time can be deleted (`FailedListLosesVni`). Even when both lists succeed, a VNI handed over from
  a gateway to a VM between the two reads can be deleted (`HandoverLosesVni`). `DeletionAudit` and
  `DeletionPossible` together give the exact circumstances of a deletion.
* The webhook names a VNI after its VM, and after its network too when the VM has several; a name of
  more than 63 characters is truncated with a hash. The collector's parser takes the first dash after
  the cluster id for the end of the namespace and all that follows for the VM. It gets the VM back if
  and only if the namespace has no dash and the name is the untruncated one for a single network, or
  is truncated to just those characters (`NameRecovered`); a network's name is otherwise taken for a
  part of the VM's (`NetworkTakenForVm`). For every other name in scope the lookup protects nothing:
  some run deletes the VNI although its VM exists and names it all the time (`LookupProtectsIff`,
  `WebhookVniLostIff`, `MultiNetworkVniLost`).
* The collector looks for `floatingIPID` in FloatingIP objects, whose status type publishes
  `fipID`. An address that such an object publishes all the time can be deleted by a collector whose
  lists all succeed, if and only if it has the cluster's prefix and no gateway names it
  (`PublishedFipLostIff`).
* Virtual machines protect no floating IP (`LosesSettledIff`), so one that the webhook made for a VM
  can be deleted while the VM exists and records it (`VmFipLost`).
* Two collectors can delete each other's resources exactly when their cluster ids are the same or one
  extends the other past a dash (`CompeteIff`; for VNIs what follows must not begin with a dash).
* `CreateVNI` may call `UpdateVNI` while it holds a slot. Calls can then wait for each other
  forever exactly when there are at least as many such creations as slots (`StuckReachableIff`).
* Co-locating a floating IP can close a loop of parents. Whatever visible edges there are, none does
  if and only if no parentless floating IP stands above an attached VNI
  (`ForestForAllVisibleEdges`); for one list of edges the result is a forest if and only if the
  first pass leaves one and the links between its trees form no cycle (`ForestIffLinks`).
* Empty groups are pruned in one pass, so a group nested in a group can leave a dangling child
  (`ClosedIff`, if and only if; `NestedGroupDangles` for a topology the viewer can receive).
* VLAN ids stay distinct, whatever is entered, if and only if every wizard knows the ids from 1 to
  4094 that are in use when it completes (`CreationIff`, `DistinctIff`); two wizards opened on the
  same list can take the same id (`StaleSnapshotsCollide`).
* After the latest fetch is rejected the fetch hook goes on loading until the next effect run or
  cleanup (`RejectedLoadsOn`).

## Model

| member | source | states |
|---|---|---|
| VniNames.ParseExact | roks-vpc-network-operator/pkg/gc/orphan_collector.go:455-482 | the parser gives a non-empty answer for a name exactly when the naming scheme prints that name from a dash-free namespace and that VM |
| VniNames.ScopeMeaning | roks-vpc-network-operator/pkg/gc/orphan_collector.go:122-125 | names the sweep goes on with carry the cluster's prefix; no answer is half empty |
| VniNames.NameRecovered | roks-vpc-network-operator/pkg/webhook/vm_mutating.go:279-283 | of both names the webhook gives, for one network or several: the VM is recovered if and only if the namespace has no dash and the name is the untruncated one for a single network or agrees with it after truncation |
| VniNames.NetworkTakenForVm | roks-vpc-network-operator/pkg/gc/orphan_collector.go:474-481 | an untruncated name for several networks never gives back the VM; it gives the VM and network together exactly when the namespace has no dash |
| VniNames.Truncated | roks-vpc-network-operator/pkg/controller/network/helpers.go:536-544 | names of up to 63 characters stay; of others 55 characters, a dash and seven of the digest remain |
| VniNames.PrefixKept | roks-vpc-network-operator/pkg/controller/network/helpers.go:536-544 | truncation keeps a cluster prefix of at most 55 characters |
| VniNames.ScopesOverlap | roks-vpc-network-operator/pkg/gc/orphan_collector.go:164-169 | two cluster ids share a resource name exactly when one id extends the other past a dash |
| VniNames.VniScopesOverlap | roks-vpc-network-operator/pkg/gc/orphan_collector.go:455-482 | two VNI sweeps go on with a common name exactly when the ids are equal or one extends the other past a dash, not by a second dash |
| VniNames.ScopesDisjoint | roks-vpc-network-operator/pkg/gc/orphan_collector.go:202-207 | no resource name is in scope for two collectors with distinct dash-free ids |
| OrphanCollector.ResourceStore.List | roks-vpc-network-operator/pkg/vpc/vni.go:147-197 | all resources with the name prefix, each once, or a failure |
| OrphanCollector.Collector.BuildReferencedVniSet | roks-vpc-network-operator/pkg/gc/orphan_collector.go:281-337 | an id is marked exactly when it is not empty and some interface or the legacy id of a listed VM, or the "vniID" of a listed gateway, is that id; a failed list adds none |
| OrphanCollector.Collector.BuildReferencedFipSet | roks-vpc-network-operator/pkg/gc/orphan_collector.go:341-382 | an id is marked exactly when a listed gateway or FloatingIP object has it as "floatingIPID" |
| OrphanCollector.Collector.BuildReferencedParSet | roks-vpc-network-operator/pkg/gc/orphan_collector.go:385-407 | an id is marked exactly when a listed gateway has it as "publicAddressRangeID" |
| OrphanCollector.Collector.BuildReferencedRouteSet | roks-vpc-network-operator/pkg/gc/orphan_collector.go:410-445 | an id is marked exactly when it is in the "vpcRouteIDs" or the "ingressRouteIDs" of a listed gateway |
| OrphanCollector.Collector.VniTargetsMeaning | roks-vpc-network-operator/pkg/gc/orphan_collector.go:104-137 | what the VNI sweep is to delete: unmarked VNIs named "roks-", cluster id, dash-free namespace and a VM that is known not to exist |
| OrphanCollector.Collector.AddressTargetsMeaning | roks-vpc-network-operator/pkg/gc/orphan_collector.go:153-277 | what the other sweeps are to delete: unmarked resources whose name starts with "roks-", the cluster id and a dash |
| OrphanCollector.Collector.RouteStoreMeaning | roks-vpc-network-operator/pkg/gc/orphan_collector.go:226-252 | routes are swept in the first default table only |
| OrphanCollector.Collector.CollectOrphanedVnis | roks-vpc-network-operator/pkg/gc/orphan_collector.go:104-149 | removes exactly the VNIs that are in scope, unmarked, without VM and not refused, and counts them |
| OrphanCollector.Collector.IsOrphan | roks-vpc-network-operator/pkg/gc/orphan_collector.go:118-137 | the checks of one iteration decide membership in the set of orphans |
| OrphanCollector.OrphansListed | roks-vpc-network-operator/pkg/vpc/vni.go:172-179 | no orphan escapes the listing, whose prefix has no dash after the cluster id |
| OrphanCollector.Collector.CollectOrphanedFloatingIps | roks-vpc-network-operator/pkg/gc/orphan_collector.go:153-184 | removes exactly the unmarked floating IPs in scope whose deletion is not refused, and counts them |
| OrphanCollector.Collector.CollectOrphanedPars | roks-vpc-network-operator/pkg/gc/orphan_collector.go:188-222 | the same for address ranges; nothing without a VPC id |
| OrphanCollector.Collector.CollectOrphanedVpcRoutes | roks-vpc-network-operator/pkg/gc/orphan_collector.go:226-277 | the same for the routes of the first default routing table; other tables are untouched |
| OrphanCollector.Collector.Collect | roks-vpc-network-operator/pkg/gc/orphan_collector.go:81-101 | after a whole run each store is as if its own sweep had run alone, each sweep's gateway list failing or not on its own |
| OrphanCollector.Collector.CollectTwice | roks-vpc-network-operator/pkg/gc/orphan_collector.go:81-101 | a second run deletes nothing of a kind when no target of that kind refused its deletion in the first |
| OrphanCollector.DeleteListed | roks-vpc-network-operator/pkg/gc/orphan_collector.go:166-181 | the delete loop removes exactly the doomed items and counts them, failures included |
| OrphanCollector.SweepTwice | roks-vpc-network-operator/pkg/gc/orphan_collector.go:153-277 | two sweeps remove what was not refused both times, their counts add up, and a second sweep after no refusal removes nothing |
| OrphanCollector.VniSweepTwice | roks-vpc-network-operator/pkg/gc/orphan_collector.go:104-149 | the same for VNI sweeps |
| SweepProtocol.OthersKeepTrail | roks-vpc-network-operator/pkg/gc/orphan_collector.go:104-149 | no step of another collector or writer changes what a sweep holds from its reads |
| SweepProtocol.OwnStepExtendsTrail | roks-vpc-network-operator/pkg/gc/orphan_collector.go:104-149 | every step of a sweep keeps the record of when it listed, read VMs, read gateways and looked a VM up |
| SweepProtocol.Provenance | roks-vpc-network-operator/pkg/gc/orphan_collector.go:104-149 | in every run every sweep state comes from one listing followed by its own reads in order |
| SweepProtocol.DeletionAudit | roks-vpc-network-operator/pkg/gc/orphan_collector.go:104-149 | every deletion in every run: the VNI was listed in scope, later unnamed in the lists that succeeded, later still its VM did not exist |
| SweepProtocol.NamedVniSurvives | roks-vpc-network-operator/pkg/gc/orphan_collector.go:281-337 | from before the listing on, a VNI that VMs (or gateways) name whenever the collector lists them is not deleted when the list of that kind succeeds |
| SweepProtocol.NewVniSurvives | roks-vpc-network-operator/pkg/gc/orphan_collector.go:105-109 | a VNI created after the listing is not deleted by that sweep |
| SweepProtocol.LegacyNameSurvives | roks-vpc-network-operator/pkg/gc/orphan_collector.go:122-137 | from before the listing on, a VNI with the untruncated single-network name of a VM that exists at every lookup is kept whatever the lists return |
| SweepProtocol.ForeignVniSurvives | roks-vpc-network-operator/pkg/gc/orphan_collector.go:456-462 | a VNI with the other prefix from before the listing on is not deleted by a collector with another dash-free id, in any interleaving |
| SweepProtocol.DeletionPossible | roks-vpc-network-operator/pkg/gc/orphan_collector.go:104-149 | whatever the audit does not exclude happens in some run |
| SweepProtocol.HandoverLosesVni | roks-vpc-network-operator/pkg/gc/orphan_collector.go:281-337 | a VNI named in every state is deleted when it changes hands between the two reads |
| SweepProtocol.FailedListLosesVni | roks-vpc-network-operator/pkg/gc/orphan_collector.go:291-316 | a VNI a VM names in every state is deleted when the VM list fails |
| SweepProtocol.LookupProtectsIff | roks-vpc-network-operator/pkg/gc/orphan_collector.go:122-137 | a run deletes a VNI that an existing VM names in every state if and only if the VNI's name is in scope and does not parse to that VM |
| SweepProtocol.WebhookVniLostIff | roks-vpc-network-operator/pkg/webhook/vm_mutating.go:279-283 | that condition for every name the webhook gives |
| SweepProtocol.MultiNetworkVniLost | roks-vpc-network-operator/pkg/gc/orphan_collector.go:474-481 | such a run, with a failed VM list, for every untruncated name of a VM with several networks |
| SweepProtocol.CanDeleteIff | roks-vpc-network-operator/pkg/gc/orphan_collector.go:122-125 | a collector can delete a VNI of a given name exactly when the name is in its scope |
| SweepProtocol.CompeteIff | roks-vpc-network-operator/pkg/gc/orphan_collector.go:455-482 | two collectors can delete a VNI of one name exactly when their ids are equal or one extends the other past a dash, not by a second dash |
| UndisturbedSweep.SweepStep | roks-vpc-network-operator/pkg/gc/orphan_collector.go:117-146 | each step keeps: the VNIs left are those listed minus the orphans handled so far |
| UndisturbedSweep.UndisturbedSweepResult | roks-vpc-network-operator/pkg/gc/orphan_collector.go:104-149 | an uninterrupted sweep of the step protocol ends with what the sequential sweep leaves |
| AddressSweepProtocol.OwnStepExtendsTrail | roks-vpc-network-operator/pkg/gc/orphan_collector.go:153-184 | every step of a floating IP, range or route sweep keeps the record of its listing and reads |
| AddressSweepProtocol.Provenance | roks-vpc-network-operator/pkg/gc/orphan_collector.go:153-277 | in every run every such sweep state comes from one listing followed by its own reads in order |
| AddressSweepProtocol.DeletionAudit | roks-vpc-network-operator/pkg/gc/orphan_collector.go:166-174 | every deletion in every run: listed under the collector's prefix, later protected by no list that succeeded |
| AddressSweepProtocol.NamedResourceSurvives | roks-vpc-network-operator/pkg/gc/orphan_collector.go:341-445 | from before the listing on, a floating IP, range or route that gateways name whenever the collector lists them is not deleted when those lists succeed |
| AddressSweepProtocol.NewResourceSurvives | roks-vpc-network-operator/pkg/gc/orphan_collector.go:188-204 | one created after the listing is not deleted by that sweep |
| AddressSweepProtocol.ForeignResourceSurvives | roks-vpc-network-operator/pkg/gc/orphan_collector.go:257-265 | one with the other prefix from before the listing on is not deleted by a collector with another dash-free id, in any interleaving |
| AddressSweepProtocol.DeletionPossible | roks-vpc-network-operator/pkg/gc/orphan_collector.go:153-277 | for each of the three kinds, whatever the audit does not exclude happens in some run |
| AddressSweepProtocol.ProtectionMeaning | roks-vpc-network-operator/pkg/gc/orphan_collector.go:341-445 | which status keys of which objects protect a resource of each kind |
| AddressSweepProtocol.CanDeleteIff | roks-vpc-network-operator/pkg/gc/orphan_collector.go:164-169 | a collector can delete a resource of a given name exactly when the name has its prefix |
| AddressSweepProtocol.CompeteIff | roks-vpc-network-operator/pkg/gc/orphan_collector.go:164-169 | two collectors can delete a resource of one name exactly when one id followed by a dash begins the other followed by a dash |
| AddressSweepProtocol.LosesSettledIff | roks-vpc-network-operator/pkg/gc/orphan_collector.go:341-445 | in a cluster that does not change, with every list successful, a run deletes a resource if and only if it has the prefix and no gateway or FloatingIP object names it under the keys read |
| AddressSweepProtocol.VmFipLost | roks-vpc-network-operator/pkg/webhook/vm_mutating.go:146-157 | the floating IP made for a VM is deleted while the VM exists and records it |
| AddressSweepProtocol.PublishedFipLost | roks-vpc-network-operator/pkg/gc/orphan_collector.go:375-377 | a run deletes an address of any name with the prefix although every list succeeds and in every state a FloatingIP object publishes it |
| AddressSweepProtocol.PublishedFipLostIff | roks-vpc-network-operator/api/v1alpha1/floatingip_types.go:28-50 | such a run exists if and only if the name has the prefix and no gateway that the gateway list sees names the address |
| GracePeriod.YoungOrphanDeleted | roks-vpc-network-operator/pkg/gc/orphan_collector.go:113-115 | a sweep of any length deletes a VNI whose VM existed until less than the grace period ago |
| GracePeriod.GraceRespectedIff | roks-vpc-network-operator/pkg/gc/orphan_collector.go:113-115 | every run deletes only VNIs orphaned for the whole grace period if and only if it is zero or negative |
| GracePeriod.ConfiguredRespectedIff | roks-vpc-network-operator/pkg/gc/orphan_collector.go:57-60 | so no configured value but a negative one is respected, unset included |
| Traversal.TargetsMeaning | console-plugin/src/topology/layout.ts:206-222 | targets and sources are the other ends of the edges at the node |
| Traversal.NeighboursMeaning | console-plugin/src/topology/layout.ts:206-222 | a visit pushes the targets of the node's edges unless inbound, and the sources unless outbound |
| Traversal.PushOrder | console-plugin/src/topology/layout.ts:206-222 | once for each such edge, in the order of the edges, targets first |
| Traversal.Expand | console-plugin/src/topology/layout.ts:206-222 | one visit appends the linked nodes to the queue, duplicates included, and to the result without duplicates |
| Traversal.GetConnectedNodes | console-plugin/src/topology/layout.ts:189-226 | exactly the nodes reached by a non-empty walk, each once, in nondecreasing order of the shortest such walk |
| Traversal.Visit | console-plugin/src/topology/layout.ts:194-223 | every visit keeps the labelled-queue invariant: levels of the queue differ by at most one and never fall |
| Traversal.Complete | console-plugin/src/topology/layout.ts:194-223 | with an empty queue every walk has ended in the result at no larger depth |
| Traversal.DistanceExists | console-plugin/src/topology/layout.ts:187-193 | every connected node has a distance, so the order covers the whole result |
| Traversal.Converse | console-plugin/src/topology/layout.ts:206-222 | outbound and inbound are converses |
| Traversal.SameComponent | console-plugin/src/topology/layout.ts:189-193 | both ways, nodes of a component have the same connected nodes |
| Traversal.StartIncluded | console-plugin/src/topology/layout.ts:194-226 | both ways, the start is in its own result exactly when it has an edge with a non-empty other end |
| Hierarchy.TransformTopologyData | console-plugin/src/topology/layout.ts:65-156 | the loops compute the specified drawing |
| Hierarchy.ResolveTypes | console-plugin/src/topology/layout.ts:69-74 | every node id has the drawn type of its last node |
| Hierarchy.GroupNodes | console-plugin/src/topology/layout.ts:89-93 | pass 1 as a fold over structural edges between known nodes |
| Hierarchy.ShowEdges | console-plugin/src/topology/layout.ts:96-115 | pass 2 as a fold over the other edges, with the edges it makes visible |
| HierarchyProperties.TypeMeaning | console-plugin/src/topology/layout.ts:37-74 | the last node of an id decides its type, "cudn" and "udn" in the details overriding the one received |
| HierarchyProperties.GroupEdgeMeaning | console-plugin/src/topology/layout.ts:88-93 | structural edges are those of type "contains" or "connected" between known nodes |
| HierarchyProperties.LastSourceMeaning | console-plugin/src/topology/layout.ts:79-93 | the last such edge into a node gives its parent |
| HierarchyProperties.NoLastSource | console-plugin/src/topology/layout.ts:88-93 | a node without one has no parent after pass 1 |
| HierarchyProperties.FirstHomeMeaning | console-plugin/src/topology/layout.ts:103-110 | the first "targets" edge from a floating IP to a VNI with a parent gives its home |
| HierarchyProperties.NoFirstHome | console-plugin/src/topology/layout.ts:103-110 | without such an edge there is none |
| HierarchyProperties.HierarchyMeaning | console-plugin/src/topology/layout.ts:76-115 | for every input: who is whose child and parent, the last structural edge winning in pass 1, the first usable target in pass 2, and no pass-1 parent ever changing |
| HierarchyProperties.InverseIff | console-plugin/src/topology/layout.ts:77-84 | parents and children are exact inverses if and only if no node has two structural sources |
| HierarchyProperties.ForestKept | console-plugin/src/topology/layout.ts:95-115 | co-location keeps a forest a forest when no parentless floating IP is above an attached VNI |
| HierarchyProperties.NoFloatingIpSource | console-plugin/src/topology/layout.ts:88-93 | that condition holds when no structural edge starts at a floating IP |
| HierarchyProperties.ForestForAllVisibleEdges | console-plugin/src/topology/layout.ts:88-115 | the condition is exact: it holds if and only if all visible edges keep the forest |
| HierarchyProperties.LinkMeaning | console-plugin/src/topology/layout.ts:103-110 | a floating IP that is a root of pass 1 is hung below the root its link names |
| HierarchyProperties.ForestIffLinks | console-plugin/src/topology/layout.ts:88-115 | for every input the result is a forest if and only if pass 1 leaves one and the links between its trees form no cycle |
| HierarchyProperties.LoopFromFloatingIp | console-plugin/src/topology/layout.ts:103-110 | a floating IP above the VNI it targets becomes its own ancestor |
| HierarchyProperties.InterleavingIrrelevant | console-plugin/src/topology/layout.ts:88-115 | any interleaving of the structural and the other edges gives the same drawing |
| HierarchyProperties.VisibleOnceInOrder | console-plugin/src/topology/layout.ts:96-115 | each other edge between known nodes is drawn once, in order, from its source to its target, with its id and its type or "targets"; no other edge is |
| HierarchyProperties.ModelPerNode | console-plugin/src/topology/layout.ts:118-153 | one model per node in order, with its name, status, type and details; groups are exactly VPCs and subnets with children, and list exactly those, each once |
| HierarchyProperties.ChildrenInOrder | console-plugin/src/topology/layout.ts:79-110 | children are listed in the order of the edges that add them, structural ones first |
| Visibility.FilterDrawing | console-plugin/src/topology/TopologyViewer.tsx:183-218 | the pipeline computes the specified drawing |
| Visibility.PruneGroups | console-plugin/src/topology/TopologyViewer.tsx:205-211 | the filter that deletes visible ids as it goes gives both the remaining nodes and the remaining ids |
| Visibility.NodesExact | console-plugin/src/topology/TopologyViewer.tsx:186-211 | a plain node is drawn exactly when its type is visible, a group when a child passes; order and multiplicity are kept |
| Visibility.ChildrenExact | console-plugin/src/topology/TopologyViewer.tsx:193-202 | a drawn group lists exactly the children that pass, in order |
| Visibility.EdgesInOrder | console-plugin/src/topology/TopologyViewer.tsx:213-216 | the edges are those between output nodes, in order, as often as before |
| Visibility.TransformConsistent | console-plugin/src/topology/TopologyViewer.tsx:183-190 | drawings of the transform satisfy the condition of the lemmas below, even with repeated ids |
| Visibility.UniqueIdsConsistent | console-plugin/src/topology/TopologyViewer.tsx:193-193 | unique ids satisfy it too |
| Visibility.VisibleIdsAreOutput | console-plugin/src/topology/TopologyViewer.tsx:193-211 | the ids left after pruning are those of the output nodes |
| Visibility.EdgesExact | console-plugin/src/topology/TopologyViewer.tsx:214-216 | an edge stays exactly when both ends are output nodes, in order and as often as before |
| Visibility.GroupsFilled | console-plugin/src/topology/TopologyViewer.tsx:193-211 | no output group is empty, and a listed child is missing only if it is a group emptied in the same pass |
| Visibility.ClosedIff | console-plugin/src/topology/TopologyViewer.tsx:205-211 | no output group lists a missing child if and only if every nested group has a child that passes the type filter |
| Visibility.Monotone | console-plugin/src/topology/TopologyViewer.tsx:183-218 | more visible types give more nodes, children and edges, never fewer |
| Visibility.NestedGroupDangles | console-plugin/src/topology/TopologyViewer.tsx:205-211 | the drawing of a topology with one contains and one connected edge whose pruned subnet stays listed in its VPC |
| Bits.AndMask | console-plugin/src/components/NetworkCreationWizard.tsx:66-67 | and-ing with a prefix mask clears exactly the host bits |
| Bits.PrefixMaskValue | console-plugin/src/components/NetworkCreationWizard.tsx:66-66 | the shifted mask, with length 0 special-cased, has exactly the network bits set |
| Bits.OrAdds | console-plugin/src/components/NetworkCreationWizard.tsx:52-52 | or-ing numbers with disjoint bits adds them |
| Bits.MaskedEqual | console-plugin/src/components/NetworkCreationWizard.tsx:67-67 | two addresses agree under the mask exactly when they are in the same block |
| Cidr.AddressValue | console-plugin/src/components/NetworkCreationWizard.tsx:49-53 | shifting, or-ing and the unsigned shift give the base-256 number of the octets, signs included |
| Cidr.FitsIsWithin | console-plugin/src/components/NetworkCreationWizard.tsx:63-67 | the length and mask test holds exactly when all addresses of the CIDR are in the prefix |
| Cidr.CidrFitsAnyPrefix | console-plugin/src/components/NetworkCreationWizard.tsx:57-70 | true exactly when the CIDR parses and its address set is within that of some parseable prefix |
| Cidr.ParsePrinted | console-plugin/src/components/NetworkCreationWizard.tsx:46-54 | parsing undoes canonical printing for every address and length, and the validator accepts it |
| Cidr.ParseReads | console-plugin/src/components/NetworkCreationWizard.tsx:46-54 | fields of up to three (two) digits in range parse to address and length, also with leading zeros and space around |
| Cidr.ParseForm | console-plugin/src/components/NetworkCreationWizard.tsx:46-54 | no other text parses |
| Cidr.OctetTokens | console-plugin/src/utils/validators.ts:31-34 | the octet alternatives accept only canonical numerals up to 255 |
| Cidr.ValidIsCanonical | console-plugin/src/utils/validators.ts:31-34 | the validator accepts exactly the canonical printings, each of which the parser reads without loss |
| SubnetValidation.ValidateSubnetConfiguration | console-plugin/src/utils/validators.ts:181-216 | a text passes exactly when it is an IPv4 block whose address set is large enough or an IPv6 block with 2^(128 - length) large enough; which errors, and their order |
| SubnetValidation.SizeMeaning | console-plugin/src/utils/validators.ts:202-209 | the size check passes for a canonical IPv4 block exactly when its address set is large enough |
| SubnetValidation.AddressCount | console-plugin/src/utils/validators.ts:203-205 | a prefix of length b has 2^(32-b) addresses |
| Text.ParseIntReads | console-plugin/src/components/NetworkCreationWizard.tsx:112-112 | `parseInt` skips leading space and applies a sign to the number the rest begins with |
| Text.NumberReads | console-plugin/src/components/NetworkCreationWizard.tsx:112-112 | that number is the one of all leading digits, zeros included, whatever follows |
| Text.ParseIntForm | console-plugin/src/components/NetworkCreationWizard.tsx:113-113 | every other text is NaN |
| Text.DecimalExact | console-plugin/src/components/NetworkCreationWizard.tsx:112-112 | digits denote the number whose canonical numeral they are after leading zeros |
| Vlan.UsedVlanIds | console-plugin/src/components/NetworkCreationWizard.tsx:109-116 | the ids that some network's VLAN text denotes; a network without one uses none |
| Vlan.SuggestedVlanId | console-plugin/src/components/NetworkCreationWizard.tsx:119-124 | the least unused id from 100 to 4094, or 1 |
| Vlan.SuggestionOkIff | console-plugin/src/components/NetworkCreationWizard.tsx:403-406 | the suggestion passes the form's check exactly when 1 or some id from 100 on is free |
| Vlan.FormMeaning | console-plugin/src/components/NetworkCreationWizard.tsx:402-406 | the form accepts exactly texts that denote a free id from 1 to 4094 |
| Vlan.SuggestionWorks | console-plugin/src/components/NetworkCreationWizard.tsx:119-124 | with fewer than 3995 networks the suggestion is the least free id and passes |
| Vlan.CreationIff | console-plugin/src/components/NetworkCreationWizard.tsx:403-410 | one creation keeps distinct ids distinct for every text if and only if its list knows every id from 1 to 4094 in use |
| Vlan.DistinctKept | console-plugin/src/components/NetworkCreationWizard.tsx:403-410 | creations that know those ids keep the ids pairwise distinct all through any run |
| Vlan.DistinctIff | console-plugin/src/components/NetworkCreationWizard.tsx:403-410 | the ids stay distinct through a run for all texts if and only if every creation in it knows them for all texts before it |
| Vlan.StaleSnapshotsCollide | console-plugin/src/components/NetworkCreationWizard.tsx:96-106 | two wizards opened on one list accept the same free id |
| Vlan.DeletionFrees | console-plugin/src/components/NetworkCreationWizard.tsx:108-116 | the id of a deleted network is free again, and no other |
| RateLimiter.Limiter.Acquire | roks-vpc-network-operator/pkg/vpc/ratelimiter.go:21-28 | takes a slot, reports cancellation or blocks, exactly as the select allows |
| RateLimiter.Limiter.Release | roks-vpc-network-operator/pkg/vpc/ratelimiter.go:31-33 | gives a slot back, blocking only on an empty channel |
| RateLimiter.Client.Call | roks-vpc-network-operator/pkg/vpc/floating_ip.go:99-113 | a plain call leaves the limiter as it found it on every path; when it goes through, is cancelled or blocks |
| RateLimiter.NewClient | roks-vpc-network-operator/pkg/vpc/client.go:548-576 | when a client is built, and that its limiter always has at least one slot |
| LimiterProtocol.NextInvariant | roks-vpc-network-operator/pkg/vpc/ratelimiter.go:21-33 | every step keeps: slots held are the calls between acquire and release, nested ones twice, within capacity |
| LimiterProtocol.SlotsAreHolders | roks-vpc-network-operator/pkg/vpc/ratelimiter.go:9-33 | so they are in every run of any number of calls |
| LimiterProtocol.ReleaseNeverBlocks | roks-vpc-network-operator/pkg/vpc/ratelimiter.go:31-33 | a call that holds a slot can always release it |
| LimiterProtocol.CancelledMoves | roks-vpc-network-operator/pkg/vpc/ratelimiter.go:21-28 | a cancelled call never waits for ever, and giving up keeps the slots |
| LimiterProtocol.FinishedHoldsNothing | roks-vpc-network-operator/pkg/vpc/floating_ip.go:12-15 | a finished run holds no slot |
| LimiterProtocol.RunsAreBounded | roks-vpc-network-operator/pkg/vpc/vni.go:16-109 | calls take at most five steps each in any run |
| LimiterProtocol.StuckReachableIff | roks-vpc-network-operator/pkg/vpc/vni.go:74-95 | some run gets stuck if and only if there are at least as many renaming creations as slots |
| LimiterProtocol.MaximalRunsFinish | roks-vpc-network-operator/pkg/vpc/ratelimiter.go:21-33 | with fewer such creations a run that cannot go on has finished, with every slot free |
| FetchHook.Hook.RunEffect | console-plugin/src/api/hooks.ts:55-60 | an effect run opens its own flag and sets loading |
| FetchHook.Hook.RunCleanup | console-plugin/src/api/hooks.ts:75-77 | a cleanup closes the flag of the latest run and nothing else |
| FetchHook.Hook.Resume | console-plugin/src/api/hooks.ts:61-70 | an answer is shown only if the flag of its run is open; a falsy payload shows as none |
| FetchHook.Hook.Reject | console-plugin/src/api/hooks.ts:58-60 | a rejected fetch ends its run at the `await` and changes nothing the component sees |
| FetchHook.StaleChangesNothing | console-plugin/src/api/hooks.ts:56-77 | in every reachable state a response from an earlier effect run changes nothing |
| FetchHook.StaleAnswersRemovable | console-plugin/src/api/hooks.ts:56-77 | every run has the outcome of the same run without its stale answers |
| FetchHook.ViewIsHistory | console-plugin/src/api/hooks.ts:43-81 | in every run the component sees what the history of events prescribes |
| FetchHook.LoadingUntilAnswered | console-plugin/src/api/hooks.ts:59-70 | while mounted, loading is true exactly while the latest fetch is unanswered |
| FetchHook.AnswerShown | console-plugin/src/api/hooks.ts:61-70 | once it is answered, data and error both come from that answer |
| FetchHook.RejectedLoadsOn | console-plugin/src/api/hooks.ts:58-70 | after the latest fetch is rejected the hook goes on loading, showing what it showed, up to the next effect run or cleanup |
| FetchHook.LatestAnswerWins | console-plugin/src/api/hooks.ts:56-77 | outstanding answers may arrive in any order without changing the outcome |
| NodeSelector.ParseNodeSelector | roks-vpc-network-operator/cmd/manager/main.go:318-333 | the loop computes the specified map |
| NodeSelector.LastEntryWins | roks-vpc-network-operator/cmd/manager/main.go:320-331 | a key is present exactly when an entry names it, with the value of the last such entry |
| NodeSelector.BareKey | roks-vpc-network-operator/cmd/manager/main.go:321-330 | an entry without "=" sets itself to "", without the space around it |
| NodeSelector.KeyAndValue | roks-vpc-network-operator/cmd/manager/main.go:325-328 | an entry with "=" sets what is before the first one to what is after it |
| NodeSelector.EntryCases | roks-vpc-network-operator/cmd/manager/main.go:320-324 | every entry is space around a trimmed text |
| NodeSelector.CommaMerges | roks-vpc-network-operator/cmd/manager/main.go:320-331 | joining selectors with a comma merges their maps |
| NodeSelector.BlankFirst | roks-vpc-network-operator/cmd/manager/main.go:321-324 | a blank entry at the front changes nothing |
| NodeSelector.BlankLast | roks-vpc-network-operator/cmd/manager/main.go:321-324 | nor at the end |
| NodeSelector.BlankBetween | roks-vpc-network-operator/cmd/manager/main.go:321-324 | nor between two selectors |
| NodeSelector.ParsedIsClean | roks-vpc-network-operator/cmd/manager/main.go:320-331 | no parsed key or value holds a separator or an outer space |
| NodeSelector.RoundTrip | roks-vpc-network-operator/cmd/manager/main.go:317-333 | parsing the printing of a map gives the map if and only if its keys and values are clean |
| DeepCopy.DhcpDnsConfig.DeepCopyInto | roks-vpc-network-operator/api/v1alpha1/zz_generated.deepcopy.go:433-445 | equal value, fresh slices, nothing shared inside the copy |
| DeepCopy.DhcpOptions.DeepCopyInto | roks-vpc-network-operator/api/v1alpha1/zz_generated.deepcopy.go:473-490 | equal value, fresh pointer and slices |
| DeepCopy.NetworkDhcp.DeepCopyInto | roks-vpc-network-operator/api/v1alpha1/zz_generated.deepcopy.go:518-545 | equal value, everything reached from the copy fresh, no object reached twice |
| DeepCopy.RouterNetwork.DeepCopy | roks-vpc-network-operator/api/v1alpha1/zz_generated.deepcopy.go:618-625 | the same for one network |
| DeepCopy.CopyNetworks | roks-vpc-network-operator/api/v1alpha1/zz_generated.deepcopy.go:1588-1594 | the copied slice holds the values of the originals as trees on disjoint fresh objects, even where the originals share |
| DeepCopy.OneMoreTree | roks-vpc-network-operator/api/v1alpha1/zz_generated.deepcopy.go:1591-1593 | each iteration adds a tree on objects of its own |
| DeepCopy.TreesHold | roks-vpc-network-operator/api/v1alpha1/zz_generated.deepcopy.go:1588-1594 | every copied network has the value of its original |
| DeepCopy.TreesShareNothing | roks-vpc-network-operator/api/v1alpha1/zz_generated.deepcopy.go:1588-1594 | no two copied networks reach a common object |
| DeepCopy.HoldTheirValues | roks-vpc-network-operator/api/v1alpha1/vpcrouter_types.go:20-161 | a slice holds its values on the objects reached from it |
| DeepCopy.DnsValueMeaning | roks-vpc-network-operator/api/v1alpha1/vpcrouter_types.go:130-142 | two DNS settings have equal values exactly when they agree field by field, nil and empty slices told apart |
| DeepCopy.OptionsValueMeaning | roks-vpc-network-operator/api/v1alpha1/vpcrouter_types.go:145-161 | the same for DHCP options |
| DeepCopy.DhcpValueMeaning | roks-vpc-network-operator/api/v1alpha1/vpcrouter_types.go:77-101 | the same for the DHCP settings of a network |
| DeepCopy.NetworkValueMeaning | roks-vpc-network-operator/api/v1alpha1/vpcrouter_types.go:20-39 | the same for a network |
| CopyWrites.WriteDns | roks-vpc-network-operator/api/v1alpha1/vpcrouter_types.go:130-142 | a write through DNS settings: what it does to their value, and that only they and new objects are touched |
| CopyWrites.WriteOptions | roks-vpc-network-operator/api/v1alpha1/vpcrouter_types.go:145-161 | the same for DHCP options |
| CopyWrites.WriteDhcp | roks-vpc-network-operator/api/v1alpha1/vpcrouter_types.go:77-101 | the same for the DHCP settings of a network, nested writes and replaced pointers included |
| CopyWrites.WriteList | roks-vpc-network-operator/api/v1alpha1/vpcrouter_types.go:20-39 | the same for a write through a slice of networks, also where elements share objects or a pointer or slice is copied from one field to another |
| CopyWrites.CopyApart | roks-vpc-network-operator/api/v1alpha1/zz_generated.deepcopy.go:1588-1594 | a copied slice and its original reach disjoint sets of objects |
| CopyWrites.WriteSide | roks-vpc-network-operator/api/v1alpha1/zz_generated.deepcopy.go:1588-1594 | any sequence of writes through one of two such slices keeps them so and leaves what the other holds unchanged |
| CopyWrites.CopyAndWrite | roks-vpc-network-operator/api/v1alpha1/zz_generated.deepcopy.go:1588-1594 | after a copy and any writes through it the original holds what it held, whatever is written; the copy holds that value with the writes done to it when no write makes its elements share |
| CopyWrites.WriteThroughOriginal | roks-vpc-network-operator/api/v1alpha1/zz_generated.deepcopy.go:1588-1594 | after a copy and any writes through the original, whatever it shares, the copy holds the value copied |
| CopyWrites.CopyAndInterleave | roks-vpc-network-operator/api/v1alpha1/zz_generated.deepcopy.go:1588-1594 | after any interleaving of writes through both, each slice holds what its own writes make of the value copied, when those make no elements share (and, for the original, none shared before) |

## Left out

- Kubernetes and IBM SDK clients, caches, pagination and retries: each list, get and delete is one step that may fail.
- JSON decoding of annotations and statuses: they are decoded optional fields under the key names the code reads; an annotation that does not decode is absent.
- The order in which lists and Go maps are read: methods accept any order, results do not depend on it.
- Metrics, logging and the ticker around the collector: no effect on what is deleted.
- The SHA-256 digest in truncated names: a parameter with at least seven characters.
- Reconcilers, webhook and BFF handlers: their naming scheme is used, their behaviour is not modelled.
- The choice of the default routing table among other writers: step-wise route sweeps start at the listing of one fixed table; the sequential model chooses it.
- RateLimiter.Client.Call: models the calls that take one slot; creations that rename, which take two, are modelled only in the step protocol.
- Panics inside an SDK call: not part of this model.
- React itself: an effect's cleanup and its next run are steps that other steps may separate; state updates take effect at once.
- The polling variant of the fetch hook: it shares one flag between effect runs and does not keep the stale-answer property.
- The pattern for IPv6 addresses: a parameter of the subnet check; the slash and the length beside it are modelled.
- The other conditions of the wizard's steps: a network type that needs no VPC skips the VLAN and prefix checks, and a new address prefix can be requested instead.
- Numbers beyond 2^53 in `parseInt`: integers are unbounded.
- Drawing: styles, icons, colours, positions, layout, selection, type toggles and statistics; the second copy of the filter pipeline is the same code.
- `findTopologyNode`, `filterNodesByType`, `createTopologyGraph`, formatters and field validators: they would only add easy members.
- Slices that are part of a larger array: a slice is a whole array, so capacity and overlapping slices are not captured.
- CopyWrites.WriteList: what a write that copies a pointer or slice header does to the values, and what later writes do to values that share, is left open; that they reach nothing outside the slice is proved.
- Copying a structure into itself: callers always pass a new structure, and the model requires it.
- The deep copies of `Pod`, `Metrics`, `OpenVPN`, firewall and IDS settings: only the networks of a router are covered.
- The optimistic removal in the networks list page.
