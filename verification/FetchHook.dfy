/** The fetch hook `useBFFData`: effect runs, their cleanups and late answers interleave. Every
    run of the effect closes over its own `mounted` flag. */
module FetchHook {
  import opened Text

  /** A JavaScript value that may be absent; `Falsy` covers 0, "" and false. */
  datatype Payload<T> = Undefined | Falsy(falsy: T) | Truthy(value: T)

  /** The `x || null` of the hook. */
  function OrNull<T>(p: Payload<T>): Option<T> {
    if p.Truthy? then Some(p.value) else None
  }

  datatype Response<T, E> = Response(data: Payload<T>, error: Payload<E>)

  /** What the component sees. */
  datatype View<T, E> = View(data: Option<T>, loading: bool, error: Option<E>)

  /** `mounted` holds one flag per run of the effect, in order; `settled` are the runs whose fetch
      has resolved or was rejected. */
  datatype HookState<T, E> = HookState(view: View<T, E>, mounted: seq<bool>, settled: set<nat>)

  /** `Answer(k, r)`: the fetch of run `k` of the effect resolves to `r`. */
  datatype Event<T, E> =
    | Effect
    | Cleanup
    | Answer(run: nat, response: Response<T, E>)
    | Rejection(run: nat)

  function Initial<T, E>(): HookState<T, E> {
    HookState(View(None, true, None), [], {})
  }

  predicate Live(s: HookState) {
    s.mounted != [] && s.mounted[|s.mounted| - 1]
  }

  /** React runs an effect only after the cleanup of its previous run, and a promise belongs to
      a run that has started and settles once. */
  predicate Enabled(s: HookState, e: Event) {
    match e
    case Effect => !Live(s)
    case Cleanup => Live(s)
    case Answer(k, _) => k < |s.mounted| && k !in s.settled
    case Rejection(k) => k < |s.mounted| && k !in s.settled
  }

  function Show<T, E>(r: Response<T, E>): View<T, E> {
    if r.error.Truthy? then View(None, false, Some(r.error.value)) else View(OrNull(r.data), false, None)
  }

  function Step<T, E>(s: HookState<T, E>, e: Event<T, E>): HookState<T, E>
    requires Enabled(s, e)
  {
    match e
    case Effect => s.(view := s.view.(loading := true), mounted := s.mounted + [true])
    case Cleanup => s.(mounted := s.mounted[|s.mounted| - 1 := false])
    case Answer(k, r) => s.(view := if s.mounted[k] then Show(r) else s.view, settled := s.settled + {k})
    case Rejection(k) => s.(settled := s.settled + {k})
  }

  class Hook<T(0), E(0)> {
    var data: Option<T>
    var loading: bool
    var error: Option<E>
    var mounted: seq<bool>
    ghost var settled: set<nat>

    ghost function State(): HookState<T, E>
      reads this
    {
      HookState(View(data, loading, error), mounted, settled)
    }

    constructor ()
      ensures State() == Initial()
      ensures loading && data == None && error == None && mounted == []
    {
      data, loading, error, mounted, settled := None, true, None, [], {};
    }

    method RunEffect()
      requires Enabled(State(), Effect)
      modifies this
      ensures State() == Step(old(State()), Effect)
      ensures loading && data == old(data) && error == old(error) && mounted == old(mounted) + [true]
    {
      mounted := mounted + [true];
      loading := true;
    }

    method RunCleanup()
      requires Enabled(State(), Cleanup)
      modifies this`mounted
      ensures State() == Step(old(State()), Cleanup)
      ensures |mounted| == |old(mounted)| && mounted == old(mounted)[..|mounted| - 1] + [false]
    {
      mounted := mounted[|mounted| - 1 := false];
    }

    /** The code after the `await` in run `k`. */
    method Resume(k: nat, response: Response<T, E>)
      requires Enabled(State(), Answer(k, response))
      modifies this
      ensures State() == Step(old(State()), Answer(k, response))
      ensures mounted == old(mounted) && settled == old(settled) + {k}
      ensures !mounted[k] ==> data == old(data) && loading == old(loading) && error == old(error)
      ensures mounted[k] ==> !loading
      ensures mounted[k] && response.error.Truthy? ==> error == Some(response.error.value) && data == None
      ensures mounted[k] && !response.error.Truthy? ==>
                && error == None
                && (response.data.Truthy? ==> data == Some(response.data.value))
                && (!response.data.Truthy? ==> data == None)
    {
      if mounted[k] {
        if response.error.Truthy? {
          error := Some(response.error.value);
          data := None;
        } else {
          data := OrNull(response.data);
          error := None;
        }
        loading := false;
      }
      settled := settled + {k};
    }

    /** A rejection ends run `k` at the `await`: no code after it runs. */
    ghost method Reject(k: nat)
      requires Enabled(State(), Rejection(k))
      modifies this`settled
      ensures State() == Step(old(State()), Rejection(k))
    {
      settled := settled + {k};
    }
  }

  // ---- runs ----

  ghost predicate Possible<T, E>(s: HookState<T, E>, events: seq<Event<T, E>>)
    decreases |events|
  {
    events == [] || (Enabled(s, events[0]) && Possible(Step(s, events[0]), events[1..]))
  }

  function Final<T, E>(s: HookState<T, E>, events: seq<Event<T, E>>): HookState<T, E>
    requires Possible(s, events)
    decreases |events|
  {
    if events == [] then s else Final(Step(s, events[0]), events[1..])
  }

  /** Only the latest run of the effect can still be mounted. */
  ghost predicate OnlyLatest(s: HookState) {
    forall k :: 0 <= k < |s.mounted| - 1 ==> !s.mounted[k]
  }

  /** Run `k` was cleaned up: a later run has started, or the component is gone. */
  predicate Stale(s: HookState, e: Event) {
    (e.Answer? || e.Rejection?) && !(Live(s) && e.run == |s.mounted| - 1)
  }

  lemma StepKeeps(s: HookState, e: Event)
    requires OnlyLatest(s) && Enabled(s, e)
    ensures OnlyLatest(Step(s, e)) && |Step(s, e).mounted| >= |s.mounted|
  {}

  /** A response from an earlier run of the effect changes nothing, in any reachable state. */
  lemma StaleChangesNothing(events: seq<Event>, e: Event)
    requires Possible(Initial(), events) && Enabled(Final(Initial(), events), e)
    requires Stale(Final(Initial(), events), e)
    ensures Step(Final(Initial(), events), e).view == Final(Initial(), events).view
    ensures Step(Final(Initial(), events), e).mounted == Final(Initial(), events).mounted
  {
    FinalKeeps(Initial(), events);
  }

  lemma {:induction false} FinalKeeps(s: HookState, events: seq<Event>)
    requires OnlyLatest(s) && Possible(s, events)
    ensures OnlyLatest(Final(s, events))
    decreases |events|
  {
    if events != [] {
      StepKeeps(s, events[0]);
      FinalKeeps(Step(s, events[0]), events[1..]);
    }
  }

  /** The run without its stale answers. */
  function Timely<T, E>(s: HookState<T, E>, events: seq<Event<T, E>>): seq<Event<T, E>>
    requires Possible(s, events)
    decreases |events|
  {
    if events == [] then []
    else (if Stale(s, events[0]) then [] else [events[0]]) + Timely(Step(s, events[0]), events[1..])
  }

  /** The same view and flags, with no more fetches settled. */
  ghost predicate Lags(t: HookState, s: HookState) {
    t.view == s.view && t.mounted == s.mounted && t.settled <= s.settled
  }

  lemma {:induction false} LaggingRun(s: HookState, events: seq<Event>, t: HookState)
    requires OnlyLatest(s) && Possible(s, events) && Lags(t, s)
    ensures Possible(t, Timely(s, events)) && Lags(Final(t, Timely(s, events)), Final(s, events))
    decreases |events|
  {
    if events != [] {
      var e, next, rest := events[0], Step(s, events[0]), events[1..];
      StepKeeps(s, e);
      if Stale(s, e) {
        LaggingRun(next, rest, t);
        assert Timely(s, events) == Timely(next, rest);
      } else {
        LaggingRun(next, rest, Step(t, e));
        var timely := Timely(s, events);
        assert timely[0] == e && timely[1..] == Timely(next, rest);
      }
    }
  }

  /** Taking every stale answer out of a run leaves a run with the same outcome. */
  lemma StaleAnswersRemovable(events: seq<Event>)
    requires Possible(Initial(), events)
    ensures Possible(Initial(), Timely(Initial(), events))
    ensures Final(Initial(), Timely(Initial(), events)).view == Final(Initial(), events).view
    ensures Final(Initial(), Timely(Initial(), events)).mounted == Final(Initial(), events).mounted
  {
    LaggingRun(Initial(), events, Initial());
  }

  // ---- what the component sees, read off the history ----

  function Effects(events: seq<Event>): nat {
    if events == [] then 0
    else Effects(events[..|events| - 1]) + if events[|events| - 1].Effect? then 1 else 0
  }

  /** The latest lifecycle event is an effect run. */
  predicate Mounted(events: seq<Event>) {
    events != [] &&
    var e := events[|events| - 1];
    e.Effect? || (!e.Cleanup? && Mounted(events[..|events| - 1]))
  }

  /** The answer of the effect run that was current when it arrived, the latest such one. */
  function Heard<T, E>(events: seq<Event<T, E>>): Option<Response<T, E>> {
    if events == [] then None
    else
      var before, e := events[..|events| - 1], events[|events| - 1];
      if e.Answer? && Mounted(before) && e.run == Effects(before) - 1 then Some(e.response) else Heard(before)
  }

  /** Nothing heard since the latest effect run. */
  predicate Waiting(events: seq<Event>) {
    events == [] ||
    var before, e := events[..|events| - 1], events[|events| - 1];
    e.Effect? || (!(e.Answer? && Mounted(before) && e.run == Effects(before) - 1) && Waiting(before))
  }

  function ViewOf<T, E>(events: seq<Event<T, E>>): View<T, E> {
    var shown := if Heard(events).None? then View(None, true, None) else Show(Heard(events).value);
    shown.(loading := Waiting(events))
  }

  lemma {:induction false} PossiblePrefix(s: HookState, before: seq<Event>, e: Event)
    requires Possible(s, before + [e])
    ensures Possible(s, before) && Enabled(Final(s, before), e)
    ensures Final(s, before + [e]) == Step(Final(s, before), e)
    decreases |before|
  {
    var all := before + [e];
    if before == [] {
      assert all[1..] == [];
    } else {
      assert all[0] == before[0] && all[1..] == before[1..] + [e];
      PossiblePrefix(Step(s, before[0]), before[1..], e);
    }
  }

  ghost predicate Matches(s: HookState, events: seq<Event>) {
    && OnlyLatest(s) && |s.mounted| == Effects(events)
    && (Live(s) <==> Mounted(events)) && s.view == ViewOf(events)
  }

  lemma HistoryStep(s: HookState, before: seq<Event>, e: Event)
    requires Matches(s, before) && Enabled(s, e)
    ensures Matches(Step(s, e), before + [e])
  {
    var events := before + [e];
    assert events[..|events| - 1] == before && events[|events| - 1] == e;
  }

  /** In every run the component sees exactly what the history says: data and error of the last
      answer heard, and loading while nothing was heard since the latest effect run. */
  lemma {:induction false} ViewIsHistory(events: seq<Event>)
    requires Possible(Initial(), events)
    ensures Matches(Final(Initial(), events), events)
    decreases |events|
  {
    if events != [] {
      var before, e := events[..|events| - 1], events[|events| - 1];
      assert events == before + [e];
      PossiblePrefix(Initial(), before, e);
      ViewIsHistory(before);
      HistoryStep(Final(Initial(), before), before, e);
    }
  }

  lemma {:induction false} AnswersFollowEffects(events: seq<Event>)
    requires Possible(Initial(), events)
    ensures forall i :: 0 <= i < |events| && events[i].Answer? ==> events[i].run < Effects(events)
    decreases |events|
  {
    if events != [] {
      var before, e := events[..|events| - 1], events[|events| - 1];
      assert events == before + [e];
      PossiblePrefix(Initial(), before, e);
      ViewIsHistory(before);
      AnswersFollowEffects(before);
    }
  }

  /** While mounted, the hook is loading exactly until the fetch of the latest effect run is
      answered. */
  lemma {:induction false} LoadingUntilAnswered(events: seq<Event>)
    requires Possible(Initial(), events) && Mounted(events)
    ensures Final(Initial(), events).view.loading <==>
            forall i :: 0 <= i < |events| && events[i].Answer? ==> events[i].run != Effects(events) - 1
    decreases |events|
  {
    var before, e := events[..|events| - 1], events[|events| - 1];
    assert events == before + [e];
    PossiblePrefix(Initial(), before, e);
    ViewIsHistory(before);
    assert forall i :: 0 <= i < |before| ==> events[i] == before[i];
    if e.Effect? {
      AnswersFollowEffects(before);
    } else {
      LoadingUntilAnswered(before);
    }
  }

  /** A settled fetch stays settled, and nothing more comes from it. */
  lemma {:induction false} SettledOnce(s: HookState, events: seq<Event>, k: nat)
    requires Possible(s, events) && k in s.settled
    ensures forall i :: 0 <= i < |events| && (events[i].Answer? || events[i].Rejection?) ==> events[i].run != k
    decreases |events|
  {
    if events != [] {
      SettledOnce(Step(s, events[0]), events[1..], k);
      assert forall i :: 1 <= i < |events| ==> events[1..][i - 1] == events[i];
    }
  }

  lemma {:induction false} PossibleSplit(s: HookState, before: seq<Event>, after: seq<Event>)
    requires Possible(s, before + after)
    ensures Possible(s, before) && Possible(Final(s, before), after)
    ensures Final(s, before + after) == Final(Final(s, before), after)
    decreases |before|
  {
    if before == [] {
      assert before + after == after;
    } else {
      assert (before + after)[0] == before[0] && (before + after)[1..] == before[1..] + after;
      PossibleSplit(Step(s, before[0]), before[1..], after);
    }
  }

  /** And then data and error are those of that answer, whatever else arrived later. */
  lemma {:induction false} AnswerShown(events: seq<Event>, i: nat)
    requires Possible(Initial(), events) && Mounted(events)
    requires i < |events| && events[i].Answer? && events[i].run == Effects(events) - 1
    ensures var v, r := Final(Initial(), events).view, events[i].response;
            && !v.loading
            && (r.error.Truthy? ==> v.error == Some(r.error.value) && v.data == None)
            && (!r.error.Truthy? ==> v.error == None)
            && (!r.error.Truthy? && r.data.Truthy? ==> v.data == Some(r.data.value))
            && (!r.error.Truthy? && !r.data.Truthy? ==> v.data == None)
    decreases |events|
  {
    var before, e := events[..|events| - 1], events[|events| - 1];
    assert events == before + [e];
    PossiblePrefix(Initial(), before, e);
    ViewIsHistory(before);
    AnswersFollowEffects(before);
    assert forall j :: 0 <= j < |before| ==> events[j] == before[j];
    if i < |before| {
      AnswerShown(before, i);
      AnsweredIsSettled(before, i);
    }
  }

  lemma {:induction false} AnsweredIsSettled(events: seq<Event>, i: nat)
    requires Possible(Initial(), events) && i < |events| && (events[i].Answer? || events[i].Rejection?)
    ensures events[i].run in Final(Initial(), events).settled
    decreases |events|
  {
    var before, e := events[..|events| - 1], events[|events| - 1];
    assert events == before + [e];
    PossiblePrefix(Initial(), before, e);
    if i < |before| {
      AnsweredIsSettled(before, i);
    }
  }

  /** When the fetch of the current effect run is rejected, the hook goes on loading and shows what
      it showed, in every continuation up to the next effect run or cleanup. */
  lemma {:induction false} RejectedLoadsOn(before: seq<Event>, after: seq<Event>)
    requires var k := Effects(before) - 1;
             k >= 0 && Mounted(before) && Possible(Initial(), before + [Rejection(k)] + after)
    requires forall e :: e in after ==> !e.Effect? && !e.Cleanup?
    ensures var k := Effects(before) - 1;
            && Possible(Initial(), before)
            && Final(Initial(), before + [Rejection(k)] + after).view == Final(Initial(), before).view
            && Final(Initial(), before).view.loading
  {
    var k := Effects(before) - 1;
    var rejected := before + [Rejection(k)];
    PossibleSplit(Initial(), rejected, after);
    PossiblePrefix(Initial(), before, Rejection(k));
    ViewIsHistory(before);
    var s, t := Final(Initial(), before), Final(Initial(), rejected);
    NothingHeard(t, after, k);
    if !s.view.loading {
      LoadingUntilAnswered(before);
      var i :| 0 <= i < |before| && before[i].Answer? && before[i].run == k;
      AnsweredIsSettled(before, i);
    }
  }

  lemma {:induction false} NothingHeard(s: HookState, events: seq<Event>, last: nat)
    requires OnlyLatest(s) && last == |s.mounted| - 1 && last in s.settled && Possible(s, events)
    requires forall e :: e in events ==> !e.Effect? && !e.Cleanup?
    ensures Final(s, events).view == s.view
    decreases |events|
  {
    if events != [] {
      assert events[0] in events;
      NothingHeard(Step(s, events[0]), events[1..], last);
    }
  }

  /** Data and error are those of the response: an error hides the data, and what is falsy counts as
      none. */
  ghost predicate Shown(v: View, r: Response) {
    if r.error.Truthy? then v.error == Some(r.error.value) && v.data == None
    else v.error == None && v.data == if r.data.Truthy? then Some(r.data.value) else None
  }

  /** Requests answered out of order: after the latest effect run, whatever answers arrive, and
      in whatever order, the component shows the one of the latest run if it has arrived, and is
      loading otherwise. */
  lemma {:induction false} LatestAnswerWins(s: HookState, answers: seq<Event>, last: nat)
    requires OnlyLatest(s) && Live(s) && last == |s.mounted| - 1 && Possible(s, answers)
    requires forall e :: e in answers ==> e.Answer? || e.Rejection?
    ensures Final(s, answers).mounted == s.mounted
    ensures forall i :: 0 <= i < |answers| && answers[i].Answer? && answers[i].run == last
                        ==> && !Final(s, answers).view.loading
                            && Shown(Final(s, answers).view, answers[i].response)
    ensures (forall i :: 0 <= i < |answers| && answers[i].Answer? ==> answers[i].run != last)
            ==> Final(s, answers).view == s.view
    decreases |answers|
  {
    if answers != [] {
      var e, rest := answers[0], answers[1..];
      assert e in answers;
      assert forall i :: 0 <= i < |rest| ==> rest[i] == answers[i + 1];
      assert forall i :: 1 <= i < |answers| ==> rest[i - 1] == answers[i];
      if e.run == last {
        SettledOnce(Step(s, e), rest, last);
      }
      LatestAnswerWins(Step(s, e), rest, last);
    }
  }
}
