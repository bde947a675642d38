/** The grace period of the orphan collector, which its documentation promises and its code ignores:
    runs of the step protocol with the time at which each state is reached. */
module GracePeriod {
  import opened VniNames
  import opened ClusterState
  import opened OrphanCollector
  import opened SweepProtocol
  import opened Text

  /** The VNI exists and no Kubernetes object matches it: none names it, and the VM of its name is
      missing. */
  ghost predicate Orphaned(s: State, c: string, id: string) {
    && id in s.vnis && id !in VmMarks(s.cluster) && id !in GatewayMarks(s.cluster)
    && VmOf(s.vnis[id], c) !in s.cluster.vms
  }

  ghost predicate Timed(states: seq<State>, actions: seq<Action>, clock: seq<nat>) {
    && Run(states, actions) && |clock| == |states|
    && forall i, j :: 0 <= i < j < |clock| ==> clock[i] <= clock[j]
  }

  /** A VNI is deleted only after it was orphaned for the whole of the last `grace` units of time. */
  ghost predicate Respects(grace: int, states: seq<State>, actions: seq<Action>, clock: seq<nat>)
    requires Timed(states, actions, clock)
  {
    forall i: nat, c, id :: Deletes(states, actions, i, c, id) ==>
      forall j :: 0 <= j <= i && clock[i] - clock[j] < grace ==> Orphaned(states[j], c, id)
  }

  /** A VNI is deleted although its virtual machine vanished only just before the lookup, less than
      the grace period ago, in a sweep of any length with every list successful. */
  lemma YoungOrphanDeleted(grace: int, clock: seq<nat>, c: string, id: string)
    returns (states: seq<State>, actions: seq<Action>)
    requires id != "" && |clock| == 8 && forall i, j :: 0 <= i < j < |clock| ==> clock[i] <= clock[j]
    requires clock[6] - clock[4] < grace
    ensures Timed(states, actions, clock) && Deletes(states, actions, 6, c, id)
    ensures forall j :: 0 <= j <= 4 ==>
              && id in states[j].vnis && VmOf(states[j].vnis[id], c) in states[j].cluster.vms
              && !Orphaned(states[j], c, id)
    ensures VmListsSucceed(actions, c, 0, 6) && GatewayListsSucceed(actions, c, 0, 6)
    ensures !Respects(grace, states, actions, clock)
  {
    var name := VniName(c, "ns", "vm");
    ParseExact(name, c, "ns", "vm");
    var before := Cluster(map[VmKey("ns", "vm") := VirtualMachine(None, "", [])], map[], map[]);
    var after := Cluster(map[], map[], map[]);
    MachineNamesNothing(before);
    assert VmOf(name, c) == VmKey("ns", "vm");
    var t := Stray(c, Resource(id, name), before, before, after, true, true);
    states, actions := DeletionPossible(t);
    assert !Orphaned(states[4], c, id);
  }

  lemma MachineNamesNothing(cluster: Cluster)
    requires forall k :: k in cluster.vms ==> cluster.vms[k] == VirtualMachine(None, "", [])
    ensures VmMarks(cluster) == {}
  {}

  /** Every run respects a grace period if and only if there is none. */
  lemma GraceRespectedIff(grace: int)
    ensures (forall states, actions, clock :: Timed(states, actions, clock) ==>
                                                Respects(grace, states, actions, clock))
            <==> grace <= 0
  {
    if grace <= 0 {
      forall states, actions, clock | Timed(states, actions, clock)
        ensures Respects(grace, states, actions, clock)
      {}
    } else {
      var clock := seq(8, _ => 0);
      var states, actions := YoungOrphanDeleted(grace, clock, "c", "vni");
      assert Timed(states, actions, clock) && !Respects(grace, states, actions, clock);
    }
  }

  const DEFAULT_GRACE := 15 * 60

  /** The grace period in seconds that a run is given when the collector has `configured`; the manager
      sets no value, which is 0. */
  function EffectiveGrace(configured: int): int {
    if configured == 0 then DEFAULT_GRACE else configured
  }

  /** So no value but a negative one is respected, and the 15 minutes the manager gets are not. */
  lemma ConfiguredRespectedIff(configured: int)
    ensures EffectiveGrace(0) == 900 && (configured != 0 ==> EffectiveGrace(configured) == configured)
    ensures (forall states, actions, clock :: Timed(states, actions, clock) ==>
                                                Respects(EffectiveGrace(configured), states, actions, clock))
            <==> configured < 0
  {
    GraceRespectedIff(EffectiveGrace(configured));
  }
}
