/** Any number of concurrent calls that share one limiter. A plain call takes one slot; creating
    a VNI may rename it afterwards, which takes a second slot while the first is still held. */
module LimiterProtocol {

  /** Where a call is: waiting for its slot; holding it; waiting for, then holding, a second
      slot; holding the first again; returned. */
  datatype Phase = Waiting | Holding | WaitingInner | HoldingInner | Closing | Returned

  /** `slots` is the number of elements in the channel. `creators` are the calls that create a
      VNI; `cancelled` the calls whose context is done. */
  datatype State = State(capacity: nat, slots: nat, phase: map<nat, Phase>, creators: set<nat>, cancelled: set<nat>)

  /** The context of a call is done; `Acquire` sends; `Acquire` returns the context's error; a
      creation goes on to rename; the SDK call has returned and the deferred `Release` receives. */
  datatype Action =
    | Cancel(call: nat)
    | Take(call: nat)
    | GiveUp(call: nat)
    | Rename(call: nat)
    | Finish(call: nat)

  predicate Init(s: State) {
    s.slots == 0 && s.cancelled == {} && forall c :: c in s.phase ==> s.phase[c] == Waiting
  }

  /** What a call's own step does: enabled or not, its next phase, the change in slots. */
  predicate Enabled(s: State, a: Action) {
    a.call in s.phase &&
    match a
    case Cancel(c) => c !in s.cancelled
    case Take(c) => (s.phase[c].Waiting? || s.phase[c].WaitingInner?) && s.slots < s.capacity
    case GiveUp(c) => (s.phase[c].Waiting? || s.phase[c].WaitingInner?) && c in s.cancelled
    case Rename(c) => s.phase[c].Holding? && c in s.creators
    // the SDK call has returned; the release needs an element in the channel
    case Finish(c) => (s.phase[c].Holding? || s.phase[c].HoldingInner? || s.phase[c].Closing?) && s.slots > 0
  }

  function Next(s: State, a: Action): State
    requires Enabled(s, a)
  {
    match a
    case Cancel(c) => s.(cancelled := s.cancelled + {c})
    case Take(c) =>
      s.(slots := s.slots + 1, phase := s.phase[c := if s.phase[c].Waiting? then Holding else HoldingInner])
    case GiveUp(c) => s.(phase := s.phase[c := if s.phase[c].Waiting? then Returned else Closing])
    case Rename(c) => s.(phase := s.phase[c := WaitingInner])
    case Finish(c) =>
      s.(slots := s.slots - 1, phase := s.phase[c := if s.phase[c].HoldingInner? then Closing else Returned])
  }

  ghost predicate Reachable(s: State, actions: seq<Action>, s': State)
    decreases |actions|
  {
    if actions == [] then s == s' else Enabled(s, actions[0]) && Reachable(Next(s, actions[0]), actions[1..], s')
  }

  /** Calls between a successful acquire and its release: once for the first slot, once more for
      the second. */
  function Outer(s: State): set<nat> {
    set c | c in s.phase && !s.phase[c].Waiting? && !s.phase[c].Returned?
  }

  function Inner(s: State): set<nat> {
    set c | c in s.phase && s.phase[c].HoldingInner?
  }

  ghost predicate Invariant(s: State) {
    && s.slots == |Outer(s)| + |Inner(s)|
    && s.slots <= s.capacity
    && (forall c :: c in s.phase && (s.phase[c].WaitingInner? || s.phase[c].HoldingInner? || s.phase[c].Closing?)
                    ==> c in s.creators)
  }

  lemma InitInvariant(s: State)
    requires Init(s)
    ensures Invariant(s)
  {
    assert Outer(s) == {} && Inner(s) == {};
  }

  /** Moving one call from phase `p` to phase `q` moves it in or out of the two groups. */
  lemma Regroup(s: State, c: nat, q: Phase)
    requires c in s.phase
    ensures var s' := s.(phase := s.phase[c := q]);
            && Outer(s') == (if q.Waiting? || q.Returned? then Outer(s) - {c} else Outer(s) + {c})
            && Inner(s') == (if q.HoldingInner? then Inner(s) + {c} else Inner(s) - {c})
  {}

  lemma NextInvariant(s: State, a: Action)
    requires Invariant(s) && Enabled(s, a)
    ensures Invariant(Next(s, a))
  {
    var s', c := Next(s, a), a.call;
    if a.Cancel? {
      assert Outer(s') == Outer(s) && Inner(s') == Inner(s);
    } else {
      var q := s'.phase[c];
      Regroup(s, c, q);
      assert Outer(s') == Outer(s.(phase := s.phase[c := q])) && Inner(s') == Inner(s.(phase := s.phase[c := q]));
      CountsFollow(s, a);
    }
  }

  lemma CountsFollow(s: State, a: Action)
    requires Invariant(s) && Enabled(s, a) && !a.Cancel?
    ensures var q := Next(s, a).phase[a.call];
            var outer := if q.Waiting? || q.Returned? then Outer(s) - {a.call} else Outer(s) + {a.call};
            var inner := if q.HoldingInner? then Inner(s) + {a.call} else Inner(s) - {a.call};
            Next(s, a).slots == |outer| + |inner| && Next(s, a).slots <= s.capacity
  {
    var c := a.call;
    var inOuter, inInner := c in Outer(s), c in Inner(s);
    assert inOuter ==> Outer(s) + {c} == Outer(s);
    assert !inOuter ==> Outer(s) - {c} == Outer(s);
    assert !inInner ==> Inner(s) - {c} == Inner(s);
  }

  /** In every run the slots held are exactly the calls between acquire and release, and never
      more than the capacity. */
  lemma {:induction false} SlotsAreHolders(s: State, actions: seq<Action>, s': State)
    requires Invariant(s) && Reachable(s, actions, s')
    ensures Invariant(s') && s'.capacity == s.capacity && s'.creators == s.creators && s'.phase.Keys == s.phase.Keys
    decreases |actions|
  {
    if actions != [] {
      NextInvariant(s, actions[0]);
      SlotsAreHolders(Next(s, actions[0]), actions[1..], s');
    }
  }

  /** No release ever blocks. */
  lemma ReleaseNeverBlocks(s: State, c: nat)
    requires Invariant(s) && c in s.phase
    requires s.phase[c].Holding? || s.phase[c].HoldingInner? || s.phase[c].Closing?
    ensures Enabled(s, Finish(c))
  {
    assert {c} <= Outer(s);
    SubsetSize({c}, Outer(s));
  }

  ghost predicate AllReturned(s: State) {
    forall c :: c in s.phase ==> s.phase[c].Returned?
  }

  /** A finished run holds no slot. */
  lemma FinishedHoldsNothing(s: State)
    requires Invariant(s) && AllReturned(s)
    ensures s.slots == 0
  {
    assert Outer(s) == {} && Inner(s) == {};
  }

  // ---- progress ----

  /** No call can move, although some call has not returned. */
  ghost predicate Stuck(s: State) {
    && !AllReturned(s)
    && forall a: Action :: Enabled(s, a) ==> a.Cancel?
  }

  lemma SubsetSize(a: set<nat>, b: set<nat>)
    requires a <= b
    ensures |a| <= |b|
  {
    assert b == a + (b - a);
  }

  /** A call whose context is done never waits for ever: it can give up, which takes and frees no
      slot and leaves it holding the slot it had, if any. */
  lemma CancelledMoves(s: State, c: nat)
    requires c in s.phase && c in s.cancelled && (s.phase[c].Waiting? || s.phase[c].WaitingInner?)
    ensures Enabled(s, GiveUp(c)) && Next(s, GiveUp(c)).slots == s.slots
    ensures c in Outer(s) <==> c in Outer(Next(s, GiveUp(c)))
    ensures !Stuck(s)
  {
    assert Enabled(s, GiveUp(c));
  }

  /** In a stuck state every slot is held by a creator waiting for a second one. */
  lemma StuckMeans(s: State)
    requires Invariant(s) && Stuck(s)
    ensures s.capacity <= |s.creators|
  {
    forall c | c in s.phase
      ensures s.phase[c] in {Waiting, WaitingInner, Returned}
    {
      assert !Enabled(s, Finish(c));
      if s.phase[c] !in {Waiting, WaitingInner, Returned} {
        ReleaseNeverBlocks(s, c);
      }
    }
    var c :| c in s.phase && !s.phase[c].Returned?;
    assert !Enabled(s, Take(c));
    assert Inner(s) == {};
    SubsetSize(Outer(s), s.creators);
  }

  /** Steps a call can still take; every step but a cancellation uses up at least one. */
  function StepsLeft(p: Phase): nat {
    match p
    case Waiting => 5
    case Holding => 4
    case WaitingInner => 3
    case HoldingInner => 2
    case Closing => 1
    case Returned => 0
  }

  function AtLeast(s: State, k: nat): set<nat> {
    set c | c in s.phase && StepsLeft(s.phase[c]) >= k
  }

  /** The sum of the steps left, counted level by level. */
  function Rank(s: State): nat {
    |AtLeast(s, 1)| + |AtLeast(s, 2)| + |AtLeast(s, 3)| + |AtLeast(s, 4)| + |AtLeast(s, 5)|
  }

  lemma LevelShrinks(s: State, a: Action, k: nat)
    requires Enabled(s, a) && !a.Cancel? && k >= 1
    ensures |AtLeast(Next(s, a), k)| <= |AtLeast(s, k)|
    ensures k == StepsLeft(s.phase[a.call]) ==> |AtLeast(Next(s, a), k)| < |AtLeast(s, k)|
  {
    var c := a.call;
    var before, after := AtLeast(s, k), AtLeast(Next(s, a), k);
    assert StepsLeft(Next(s, a).phase[c]) < StepsLeft(s.phase[c]);
    assert after <= before;
    SubsetSize(after, before);
    if k == StepsLeft(s.phase[c]) {
      assert c in before && c !in after;
      SubsetSize(after, before - {c});
    }
  }

  lemma RankDecreases(s: State, a: Action)
    requires Enabled(s, a) && !a.Cancel?
    ensures Rank(Next(s, a)) < Rank(s)
  {
    LevelShrinks(s, a, 1);
    LevelShrinks(s, a, 2);
    LevelShrinks(s, a, 3);
    LevelShrinks(s, a, 4);
    LevelShrinks(s, a, 5);
    assert 1 <= StepsLeft(s.phase[a.call]) <= 5;
  }

  function OwnSteps(actions: seq<Action>): nat {
    if actions == [] then 0 else (if actions[0].Cancel? then 0 else 1) + OwnSteps(actions[1..])
  }

  /** No run goes on forever: calls take at most five steps each, in all. */
  lemma {:induction false} RunsAreBounded(s: State, actions: seq<Action>, s': State)
    requires Reachable(s, actions, s')
    ensures OwnSteps(actions) + Rank(s') <= Rank(s) <= 5 * |s.phase|
    decreases |actions|
  {
    forall k: nat
      ensures |AtLeast(s, k)| <= |s.phase|
    {
      SubsetSize(AtLeast(s, k), s.phase.Keys);
    }
    if actions != [] {
      var next := Next(s, actions[0]);
      RunsAreBounded(next, actions[1..], s');
      if actions[0].Cancel? {
        assert forall k: nat :: AtLeast(next, k) == AtLeast(s, k);
      } else {
        RankDecreases(s, actions[0]);
      }
    }
  }

  /** Each creator in `todo` takes its slot and then waits for a second one. */
  lemma {:induction false} Fill(s: State, todo: set<nat>)
    returns (actions: seq<Action>, s': State)
    requires forall c :: c in todo ==> c in s.phase && s.phase[c].Waiting? && c in s.creators
    requires s.slots + |todo| <= s.capacity
    ensures Reachable(s, actions, s')
    ensures s' == s.(slots := s.slots + |todo|, phase := s'.phase) && s'.phase.Keys == s.phase.Keys
    ensures forall c :: c in s.phase ==> s'.phase[c] == if c in todo then WaitingInner else s.phase[c]
    decreases |todo|
  {
    if todo == {} {
      actions, s' := [], s;
    } else {
      var c :| c in todo;
      var s1 := Next(s, Take(c));
      var s2 := Next(s1, Rename(c));
      var rest;
      rest, s' := Fill(s2, todo - {c});
      actions := [Take(c)] + ([Rename(c)] + rest);
      assert ([Rename(c)] + rest)[1..] == rest && actions[1..] == [Rename(c)] + rest;
      assert Reachable(s1, [Rename(c)] + rest, s');
    }
  }

  lemma SubsetOfSize(all: set<nat>, n: nat)
    returns (some: set<nat>)
    requires n <= |all|
    ensures some <= all && |some| == n
  {
    some := {};
    while |some| < n
      invariant some <= all && |some| <= n
    {
      assert all == some + (all - some);
      var c :| c in all - some;
      some := some + {c};
    }
  }

  ghost predicate StuckRun(s: State, actions: seq<Action>, s': State) {
    Reachable(s, actions, s') && Stuck(s')
  }

  /** The run in which as many creators as there are slots take one each and then rename. */
  lemma FillGetsStuck(s: State)
    returns (actions: seq<Action>, s': State)
    requires Init(s) && 1 <= s.capacity <= |s.creators| && s.creators <= s.phase.Keys
    ensures StuckRun(s, actions, s')
  {
    var todo := SubsetOfSize(s.creators, s.capacity);
    actions, s' := Fill(s, todo);
    var c :| c in todo;
    assert c in s.phase && s'.phase[c].WaitingInner?;
    forall a: Action | Enabled(s', a)
      ensures a.Cancel?
    {
      assert a.call in s.phase;
    }
  }

  /** The exact condition for progress: with at least one slot, calls can get stuck if and only
      if there are as many VNI creations as slots. */
  lemma StuckReachableIff(s: State)
    requires Init(s) && s.capacity >= 1 && s.creators <= s.phase.Keys
    ensures (exists actions, s' :: StuckRun(s, actions, s')) <==> s.capacity <= |s.creators|
  {
    InitInvariant(s);
    forall actions, s' | StuckRun(s, actions, s')
      ensures s.capacity <= |s.creators|
    {
      SlotsAreHolders(s, actions, s');
      StuckMeans(s');
    }
    if s.capacity <= |s.creators| {
      var actions, s' := FillGetsStuck(s);
    }
  }

  /** With fewer VNI creations than slots, a run that no call can continue has finished: every
      call has returned and every slot is free. */
  lemma MaximalRunsFinish(s: State, actions: seq<Action>, s': State)
    requires Init(s) && s.creators <= s.phase.Keys && |s.creators| < s.capacity
    requires Reachable(s, actions, s') && forall a: Action :: Enabled(s', a) ==> a.Cancel?
    ensures AllReturned(s') && s'.slots == 0
  {
    InitInvariant(s);
    SlotsAreHolders(s, actions, s');
    if !AllReturned(s') {
      StuckMeans(s');
    }
    FinishedHoldsNothing(s');
  }
}
