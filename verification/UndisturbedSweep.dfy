/** A sweep of the step protocol that nothing interrupts does what the sequential collector does:
    it leaves the VPC with the same VNIs, whatever lists, lookups and deletes fail. */
module UndisturbedSweep {
  import opened ClusterState
  import opened OrphanCollector
  import opened SweepProtocol

  /** What stays the same during one sweep of collector `id`: the VNIs at its listing, the
      cluster, and which calls fail. */
  datatype Setting = Setting(
    id: string, names: map<string, string>, cluster: Cluster, vmsOk: bool, gatewaysOk: bool,
    getFails: set<VmKey>, refuses: set<string>)
  {
    function FromVms(): set<string> {
      if vmsOk then VmMarks(cluster) else {}
    }

    function Marks(): set<string> {
      FromVms() + if gatewaysOk then GatewayMarks(cluster) else {}
    }

    predicate Orphan(r: Resource) {
      VniIsOrphan(r, id, Marks(), cluster.vms.Keys, getFails)
    }

    function Removed(done: seq<Resource>): set<string> {
      set r | r in done && Orphan(r) && r.id !in refuses :: r.id
    }

    /** The outcome of a call is the one the setting says. */
    ghost predicate Answers(a: Action, before: Sweep) {
      match a
      case ReadVms(_, ok) => ok == vmsOk
      case ReadGateways(_, ok) => ok == gatewaysOk
      case GetVm(_, outcome) =>
        before.Sweeping? && before.items != [] ==> (outcome.Failed? <==> VmOf(before.items[0].name, id) in getFails)
      case DeleteVni(_, ok) => before.Deleting? ==> (ok <==> before.target.id !in refuses)
      case _ => true
    }

    /** After the items `done` of the listing, the sweep has removed the orphans among them. */
    ghost predicate Holds(listing: seq<Resource>, done: seq<Resource>, s: State, sweep: Sweep) {
      && s.cluster == cluster
      && s.vnis == names - Removed(done)
      && match sweep
         case Idle => done == listing
         case Listed(items) => done == [] && items == listing
         case VmsRead(items, marks) => done == [] && items == listing && marks == FromVms()
         case Sweeping(items, marks) => done + items == listing && marks == Marks()
         case Deleting(target, items, marks) =>
           done + [target] + items == listing && marks == Marks() && Orphan(target)
    }
  }

  lemma OneMoreDone(t: Setting, done: seq<Resource>, r: Resource)
    ensures t.Removed(done + [r]) == t.Removed(done) + if t.Orphan(r) && r.id !in t.refuses then {r.id} else {}
  {}

  lemma NextItem(done: seq<Resource>, items: seq<Resource>)
    requires items != []
    ensures done + items == done + [items[0]] + items[1..]
  {
    assert items == [items[0]] + items[1..];
  }

  lemma SkipStep(t: Setting, listing: seq<Resource>, done: seq<Resource>, s: State, s': State)
    requires t.id in s.sweeps && t.id in s'.sweeps && s'.cluster == s.cluster && s'.vnis == s.vnis
    requires t.Holds(listing, done, s, s.sweeps[t.id])
    requires s.sweeps[t.id].Sweeping? && s.sweeps[t.id].items != [] && !t.Orphan(s.sweeps[t.id].items[0])
    requires s'.sweeps[t.id] == Sweeping(s.sweeps[t.id].items[1..], s.sweeps[t.id].marks)
    ensures t.Holds(listing, done + [s.sweeps[t.id].items[0]], s', s'.sweeps[t.id])
  {
    var items := s.sweeps[t.id].items;
    OneMoreDone(t, done, items[0]);
    NextItem(done, items);
  }

  lemma DeleteStep(t: Setting, listing: seq<Resource>, done: seq<Resource>, s: State, ok: bool, s': State)
    requires Step(s, DeleteVni(t.id, ok), s')
    requires t.Holds(listing, done, s, s.sweeps[t.id]) && t.Answers(DeleteVni(t.id, ok), s.sweeps[t.id])
    ensures t.Holds(listing, done + [s.sweeps[t.id].target], s', s'.sweeps[t.id])
  {
    var target := s.sweeps[t.id].target;
    OneMoreDone(t, done, target);
    RemoveOneMore(t.names, t.Removed(done), target.id);
  }

  lemma SweepStep(t: Setting, listing: seq<Resource>, done: seq<Resource>, s: State, a: Action, s': State)
    returns (done': seq<Resource>)
    requires !a.Environment? && !a.ListVnis? && a.who == t.id && Step(s, a, s')
    requires t.Holds(listing, done, s, s.sweeps[t.id]) && t.Answers(a, s.sweeps[t.id])
    ensures t.Holds(listing, done', s', s'.sweeps[t.id])
  {
    var before := s.sweeps[t.id];
    done' := done;
    match a {
      case SkipItem(_) =>
        done' := done + [before.items[0]];
        SkipStep(t, listing, done, s, s');
      case GetVm(_, outcome) =>
        if outcome.NotFound? {
          NextItem(done, before.items);
        } else {
          done' := done + [before.items[0]];
          SkipStep(t, listing, done, s, s');
        }
      case DeleteVni(_, ok) =>
        done' := done + [before.target];
        DeleteStep(t, listing, done, s, ok, s');
      case _ =>
    }
  }

  /** From the listing at step `l` to state `i` only this collector moves, and its calls answer
      as the setting says. */
  ghost predicate Undisturbed(states: seq<State>, actions: seq<Action>, l: nat, i: nat, t: Setting)
    requires Run(states, actions)
  {
    && l < i < |states| && t.id in states[l].sweeps
    && actions[l].ListVnis? && actions[l].who == t.id && actions[l].listing.Some?
    && t.names == states[l].vnis && t.cluster == states[l].cluster
    && forall j :: l < j < i ==>
                     && !actions[j].Environment? && !actions[j].ListVnis? && actions[j].who == t.id
                     && t.id in states[j].sweeps && t.Answers(actions[j], states[j].sweeps[t.id])
  }

  lemma {:induction false} SweepSoFar(states: seq<State>, actions: seq<Action>, l: nat, i: nat, t: Setting)
    returns (done: seq<Resource>)
    requires Run(states, actions) && Undisturbed(states, actions, l, i, t)
    ensures t.id in states[i].sweeps
    ensures t.Holds(actions[l].listing.value, done, states[i], states[i].sweeps[t.id])
    decreases i
  {
    assert Step(states[i - 1], actions[i - 1], states[i]);
    if i == l + 1 {
      done := [];
    } else {
      done := SweepSoFar(states, actions, l, i - 1, t);
      done := SweepStep(t, actions[l].listing.value, done, states[i - 1], actions[i - 1], states[i]);
    }
  }

  /** When such a sweep is over, exactly the orphans whose deletion was not refused are gone. */
  lemma UndisturbedSweepResult(states: seq<State>, actions: seq<Action>, l: nat, i: nat, t: Setting)
    requires Run(states, actions) && Undisturbed(states, actions, l, i, t)
    requires t.id in states[i].sweeps && states[i].sweeps[t.id].Idle?
    ensures states[i].vnis
            == Swept(t.names, OrphanVnis(t.names, t.id, t.Marks(), t.cluster.vms.Keys, t.getFails), t.refuses)
  {
    var listing := actions[l].listing.value;
    var done := SweepSoFar(states, actions, l, i, t);
    assert Step(states[l], actions[l], states[l + 1]);
    OrphansListed(listing, t.names, t.id, t.Marks(), t.cluster.vms.Keys, t.getFails);
    var orphans := OrphanVnis(t.names, t.id, t.Marks(), t.cluster.vms.Keys, t.getFails);
    forall id
      ensures id in t.Removed(listing) <==> id in orphans - t.refuses
    {
      if r :| r in listing && r.id == id {
        OrphanAt(t.names, r, t.id, t.Marks(), t.cluster.vms.Keys, t.getFails);
      }
    }
    assert t.Removed(listing) == orphans - t.refuses;
  }
}
