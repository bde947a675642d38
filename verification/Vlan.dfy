/** VLAN IDs in the network wizard: the ids in use, the suggested id, the check of the form, and
    what the check keeps over runs of creations and deletions. */
module Vlan {
  import opened Text

  const FIRST_SUGGESTED := 100
  const LAST := 4094

  /** The id a network's VLAN text denotes; None when it has none or it is not a number. */
  function VlanOf(text: Option<string>): Option<int> {
    ParseInt(if text.Some? then text.value else "")
  }

  function VlansOf(networks: seq<Option<string>>): (vlans: seq<Option<int>>)
    ensures |vlans| == |networks|
  {
    seq(|networks|, i requires 0 <= i < |networks| => VlanOf(networks[i]))
  }

  /** The ids in use, given the parsed id of every network. */
  function UsedIds(vlans: seq<Option<int>>): set<int> {
    set v | v in vlans && v.Some? :: v.value
  }

  lemma UsedStep(vlans: seq<Option<int>>, i: nat)
    requires i < |vlans|
    ensures UsedIds(vlans[..i + 1]) == UsedIds(vlans[..i]) + if vlans[i].Some? then {vlans[i].value} else {}
  {
    assert vlans[..i + 1] == vlans[..i] + [vlans[i]];
  }

  /** An id is in use exactly when the VLAN text of some network denotes it; a network without a text
      uses none. */
  lemma UsedMeaning(networks: seq<Option<string>>)
    ensures forall v ::
              v in UsedIds(VlansOf(networks)) <==>
              exists i :: 0 <= i < |networks| && networks[i].Some? && ParseInt(networks[i].value) == Some(v)
  {
    var vlans := VlansOf(networks);
    forall i | 0 <= i < |networks|
      ensures networks[i].Some? ==> vlans[i] == ParseInt(networks[i].value)
      ensures networks[i].None? ==> vlans[i] == None
    {
      assert vlans[i] in vlans;
    }
    forall v | v in UsedIds(vlans)
      ensures exists i :: 0 <= i < |networks| && networks[i].Some? && ParseInt(networks[i].value) == Some(v)
    {
      var i :| 0 <= i < |vlans| && vlans[i] == Some(v);
      assert networks[i].Some?;
    }
    forall v, i | 0 <= i < |networks| && networks[i].Some? && ParseInt(networks[i].value) == Some(v)
      ensures v in UsedIds(vlans)
    {
      assert vlans[i] in vlans;
    }
  }

  method UsedVlanIds(networks: seq<Option<string>>) returns (ids: set<int>)
    ensures ids == UsedIds(VlansOf(networks))
    ensures forall v ::
              v in ids <==>
              exists i :: 0 <= i < |networks| && networks[i].Some? && ParseInt(networks[i].value) == Some(v)
  {
    UsedMeaning(networks);
    ids := {};
    ghost var vlans := VlansOf(networks);
    for i := 0 to |networks|
      invariant ids == UsedIds(vlans[..i])
    {
      UsedStep(vlans, i);
      var parsed := VlanOf(networks[i]);
      assert parsed == vlans[i];
      if parsed.Some? {
        ids := ids + {parsed.value};
      }
    }
    assert vlans[..|networks|] == vlans;
  }

  /** The least unused id from 100 on; 1 when there is none. */
  method SuggestedVlanId(used: set<int>) returns (id: int)
    ensures Suggests(used, id)
    ensures id == 1 || (100 <= id <= 4094 && id !in used && forall j :: 100 <= j < id ==> j in used)
    ensures id == 1 ==> forall j :: 100 <= j <= 4094 ==> j in used
  {
    for i := FIRST_SUGGESTED to LAST + 1
      invariant forall j :: FIRST_SUGGESTED <= j < i ==> j in used
    {
      if i !in used { return i; }
    }
    return 1;
  }

  ghost predicate Suggests(used: set<int>, id: int) {
    if exists j :: FIRST_SUGGESTED <= j <= LAST && j !in used
    then FIRST_SUGGESTED <= id <= LAST && id !in used && forall j :: FIRST_SUGGESTED <= j < id ==> j in used
    else id == 1
  }

  /** The form accepts a non-empty text that denotes an id from 1 to 4094 not in use. */
  predicate VlanOk(text: string, used: set<int>) {
    var parsed := ParseInt(text);
    |text| > 0 && parsed.Some? && 1 <= parsed.value <= LAST && parsed.value !in used
  }

  lemma FormMeaning(text: string, used: set<int>)
    ensures VlanOk(text, used) <==> exists v :: ParseInt(text) == Some(v) && 1 <= v <= 4094 && v !in used
  {}

  /** The suggestion passes the check exactly when some id it considers is free. */
  lemma SuggestionOkIff(used: set<int>, id: int)
    requires Suggests(used, id)
    ensures id >= 1 && (VlanOk(Numeral(id), used) <==> exists j :: (j == 1 || FIRST_SUGGESTED <= j <= LAST) && j !in used)
  {
    ParseIntNumeral(id);
    if id == 1 && 1 !in used {
      assert 1 == 1 && 1 !in used;
    }
    if id != 1 {
      assert FIRST_SUGGESTED <= id <= LAST && id !in used;
    }
  }

  lemma {:induction false} UsedAtMost(vlans: seq<Option<int>>)
    ensures |UsedIds(vlans)| <= |vlans|
  {
    if vlans != [] {
      var v, rest := vlans[0], vlans[1..];
      UsedAtMost(rest);
      assert vlans == [v] + rest;
      assert UsedIds(vlans) == UsedIds(rest) + if v.Some? then {v.value} else {};
    }
  }

  ghost function Interval(lo: int, n: nat): set<int> {
    if n == 0 then {} else Interval(lo, n - 1) + {lo + n - 1}
  }

  lemma {:induction false} IntervalSize(lo: int, n: nat)
    ensures |Interval(lo, n)| == n
    ensures forall j :: j in Interval(lo, n) <==> lo <= j < lo + n
  {
    if n > 0 {
      IntervalSize(lo, n - 1);
    }
  }

  lemma SubsetSize<T>(a: set<T>, b: set<T>)
    requires a <= b
    ensures |a| <= |b|
  {
    assert b == a + (b - a);
  }

  /** With fewer than 3995 networks the suggestion is the least free id from 100 and passes. */
  lemma SuggestionWorks(vlans: seq<Option<int>>, id: int)
    requires |vlans| < LAST - FIRST_SUGGESTED + 1
    requires Suggests(UsedIds(vlans), id)
    ensures FIRST_SUGGESTED <= id <= LAST && VlanOk(Numeral(id), UsedIds(vlans))
    ensures forall j :: FIRST_SUGGESTED <= j < id ==> j in UsedIds(vlans)
  {
    var used := UsedIds(vlans);
    if forall j :: FIRST_SUGGESTED <= j <= LAST ==> j in used {
      var all := Interval(FIRST_SUGGESTED, LAST - FIRST_SUGGESTED + 1);
      IntervalSize(FIRST_SUGGESTED, LAST - FIRST_SUGGESTED + 1);
      SubsetSize(all, used);
      UsedAtMost(vlans);
      assert false;
    }
    SuggestionOkIff(used, id);
  }

  // ---- runs of the wizard ----

  /** A creation by a wizard that was opened on the list `snapshot`, or a deletion. */
  datatype Event = Create(text: string, snapshot: seq<Option<int>>) | Delete(index: nat)

  /** The wizard lets a creation through only when the check passes on its snapshot. */
  function Apply(vlans: seq<Option<int>>, e: Event): seq<Option<int>> {
    match e
    case Create(text, snapshot) => if VlanOk(text, UsedIds(snapshot)) then vlans + [ParseInt(text)] else vlans
    case Delete(index) => if index < |vlans| then vlans[..index] + vlans[index + 1..] else vlans
  }

  function Run(vlans: seq<Option<int>>, events: seq<Event>): seq<Option<int>>
    decreases |events|
  {
    if events == [] then vlans else Run(Apply(vlans, events[0]), events[1..])
  }

  /** No two networks have the same VLAN id. */
  ghost predicate Distinct(vlans: seq<Option<int>>) {
    forall i, j :: 0 <= i < j < |vlans| && vlans[i].Some? ==> vlans[i] != vlans[j]
  }

  /** The snapshot knows every id in use that a creation could take. */
  ghost predicate Covers(vlans: seq<Option<int>>, snapshot: seq<Option<int>>) {
    forall v :: 1 <= v <= LAST && v in UsedIds(vlans) ==> v in UsedIds(snapshot)
  }

  /** Every creation knew the ids in use when it happened; it may know deleted ones too. */
  ghost predicate Informed(vlans: seq<Option<int>>, events: seq<Event>)
    decreases |events|
  {
    events == [] ||
    (&& (events[0].Create? ==> Covers(vlans, events[0].snapshot))
     && Informed(Apply(vlans, events[0]), events[1..]))
  }

  /** The ids are distinct before, between and after the events. */
  ghost predicate DistinctThroughout(vlans: seq<Option<int>>, events: seq<Event>)
    decreases |events|
  {
    Distinct(vlans) && (events == [] || DistinctThroughout(Apply(vlans, events[0]), events[1..]))
  }

  lemma AddNewId(vlans: seq<Option<int>>, id: Option<int>)
    requires Distinct(vlans) && id.Some? && id.value !in UsedIds(vlans)
    ensures Distinct(vlans + [id])
  {
    forall i | 0 <= i < |vlans|
      ensures vlans[i] != id
    {
      assert vlans[i] in vlans;
    }
  }

  lemma ApplyDistinct(vlans: seq<Option<int>>, e: Event)
    requires Distinct(vlans) && (e.Create? ==> Covers(vlans, e.snapshot))
    ensures Distinct(Apply(vlans, e))
  {
    if e.Create? && VlanOk(e.text, UsedIds(e.snapshot)) {
      AddNewId(vlans, ParseInt(e.text));
    }
  }

  /** An id in use that the snapshot does not know can be entered a second time. */
  lemma UnknownIdCollides(vlans: seq<Option<int>>, snapshot: seq<Option<int>>, v: int)
    requires 1 <= v <= LAST && v in UsedIds(vlans) && v !in UsedIds(snapshot)
    ensures !Distinct(Apply(vlans, Create(Numeral(v), snapshot)))
  {
    ParseIntNumeral(v);
    var k :| 0 <= k < |vlans| && vlans[k] == Some(v);
    var after := Apply(vlans, Create(Numeral(v), snapshot));
    assert after[k] == after[|vlans|];
  }

  /** One creation: whatever text is entered the ids stay distinct, if and only if the snapshot
      knows every id in use from 1 to 4094. */
  lemma CreationIff(vlans: seq<Option<int>>, snapshot: seq<Option<int>>)
    requires Distinct(vlans)
    ensures (forall text :: Distinct(Apply(vlans, Create(text, snapshot)))) <==> Covers(vlans, snapshot)
  {
    if Covers(vlans, snapshot) {
      forall text
        ensures Distinct(Apply(vlans, Create(text, snapshot)))
      {
        ApplyDistinct(vlans, Create(text, snapshot));
      }
    }
    if forall text :: Distinct(Apply(vlans, Create(text, snapshot))) {
      forall v | 1 <= v <= LAST && v in UsedIds(vlans)
        ensures v in UsedIds(snapshot)
      {
        if v !in UsedIds(snapshot) {
          UnknownIdCollides(vlans, snapshot, v);
        }
      }
    }
  }

  /** Informed creations keep VLAN ids pairwise distinct all through any run. */
  lemma {:induction false} DistinctKept(vlans: seq<Option<int>>, events: seq<Event>)
    requires Distinct(vlans) && Informed(vlans, events)
    ensures DistinctThroughout(vlans, events) && Distinct(Run(vlans, events))
    decreases |events|
  {
    if events != [] {
      ApplyDistinct(vlans, events[0]);
      DistinctKept(Apply(vlans, events[0]), events[1..]);
    }
  }

  /** What happens, except for the texts that are entered: a wizard opened on a list is completed,
      or a network is deleted. */
  datatype Plan = Wizard(snapshot: seq<Option<int>>) | Removal(index: nat)

  predicate Fits(e: Event, p: Plan) {
    match p
    case Wizard(snapshot) => e.Create? && e.snapshot == snapshot
    case Removal(index) => e == Delete(index)
  }

  ghost predicate Follows(events: seq<Event>, plan: seq<Plan>) {
    |events| == |plan| && forall i :: 0 <= i < |plan| ==> Fits(events[i], plan[i])
  }

  /** The ids stay distinct whatever texts are entered. */
  ghost predicate DistinctFor(vlans: seq<Option<int>>, plan: seq<Plan>) {
    forall events :: Follows(events, plan) ==> DistinctThroughout(vlans, events)
  }

  /** The ids stay distinct whatever texts are entered, if and only if every creation is informed
      whatever texts were entered before it. */
  lemma DistinctIff(vlans: seq<Option<int>>, plan: seq<Plan>)
    requires Distinct(vlans)
    ensures DistinctFor(vlans, plan) <==> forall events :: Follows(events, plan) ==> Informed(vlans, events)
  {
    if forall events :: Follows(events, plan) ==> Informed(vlans, events) {
      forall events | Follows(events, plan)
        ensures DistinctThroughout(vlans, events)
      {
        DistinctKept(vlans, events);
      }
    }
    if DistinctFor(vlans, plan) {
      forall events | Follows(events, plan)
        ensures Informed(vlans, events)
      {
        DistinctOnlyInformed(vlans, plan, events);
      }
    }
  }

  lemma FollowsFirst(e: Event, others: seq<Event>, plan: seq<Plan>)
    requires plan != [] && Fits(e, plan[0]) && Follows(others, plan[1..])
    ensures Follows([e] + others, plan)
  {
    forall i | 0 <= i < |plan|
      ensures Fits(([e] + others)[i], plan[i])
    {
      assert i > 0 ==> plan[1..][i - 1] == plan[i];
    }
  }

  lemma DistinctFirst(vlans: seq<Option<int>>, e: Event, others: seq<Event>)
    requires DistinctThroughout(vlans, [e] + others)
    ensures DistinctThroughout(Apply(vlans, e), others)
  {
    assert ([e] + others)[1..] == others;
  }

  lemma DistinctForRest(vlans: seq<Option<int>>, plan: seq<Plan>, e: Event)
    requires DistinctFor(vlans, plan) && plan != [] && Fits(e, plan[0])
    ensures DistinctFor(Apply(vlans, e), plan[1..])
  {
    forall others | Follows(others, plan[1..])
      ensures DistinctThroughout(Apply(vlans, e), others)
    {
      FollowsFirst(e, others, plan);
      DistinctFirst(vlans, e, others);
    }
  }

  lemma FirstIsInformed(vlans: seq<Option<int>>, plan: seq<Plan>, others: seq<Event>)
    requires Distinct(vlans) && DistinctFor(vlans, plan)
    requires plan != [] && plan[0].Wizard? && Follows(others, plan[1..])
    ensures Covers(vlans, plan[0].snapshot)
  {
    forall text
      ensures Distinct(Apply(vlans, Create(text, plan[0].snapshot)))
    {
      DistinctForRest(vlans, plan, Create(text, plan[0].snapshot));
      assert DistinctThroughout(Apply(vlans, Create(text, plan[0].snapshot)), others);
    }
    CreationIff(vlans, plan[0].snapshot);
  }

  lemma {:induction false} DistinctOnlyInformed(vlans: seq<Option<int>>, plan: seq<Plan>, events: seq<Event>)
    requires Distinct(vlans) && DistinctFor(vlans, plan) && Follows(events, plan)
    ensures Informed(vlans, events)
    decreases |plan|
  {
    if plan != [] {
      var e, rest := events[0], events[1..];
      assert Fits(e, plan[0]) && Follows(rest, plan[1..]);
      if e.Create? {
        FirstIsInformed(vlans, plan, rest);
      }
      DistinctForRest(vlans, plan, e);
      assert DistinctThroughout(Apply(vlans, e), rest);
      DistinctOnlyInformed(Apply(vlans, e), plan[1..], rest);
    }
  }

  lemma RunTwice(vlans: seq<Option<int>>, e: Event)
    ensures Run(vlans, [e, e]) == Apply(Apply(vlans, e), e)
  {
    var one := Apply(vlans, e);
    assert [e, e][1..] == [e] && [e][1..] == [];
    assert Run(one, [e]) == Run(Apply(one, e), []);
  }

  lemma TakenWhenFree(vlans: seq<Option<int>>, snapshot: seq<Option<int>>, id: nat)
    requires 1 <= id <= LAST && id !in UsedIds(snapshot)
    ensures Apply(vlans, Create(Numeral(id), snapshot)) == vlans + [Some(id as int)]
  {
    ParseIntNumeral(id);
  }

  /** A stale list is not enough: wizards opened on the same list accept the same free id twice. */
  lemma StaleSnapshotsCollide(vlans: seq<Option<int>>, id: nat)
    requires 1 <= id <= LAST && id !in UsedIds(vlans)
    ensures var e := Create(Numeral(id), vlans); !Distinct(Run(vlans, [e, e]))
  {
    var e := Create(Numeral(id), vlans);
    var one := vlans + [Some(id as int)];
    RunTwice(vlans, e);
    TakenWhenFree(vlans, vlans, id);
    TakenWhenFree(one, vlans, id);
    var end := one + [Some(id as int)];
    assert end[|vlans|] == end[|vlans| + 1] == Some(id as int);
  }

  /** The id of a deleted network can be taken again. */
  lemma DeletionFrees(vlans: seq<Option<int>>, i: nat)
    requires Distinct(vlans) && i < |vlans| && vlans[i].Some?
    ensures UsedIds(Apply(vlans, Delete(i))) == UsedIds(vlans) - {vlans[i].value}
  {
    var after := Apply(vlans, Delete(i));
    forall v
      ensures v in UsedIds(after) <==> v in UsedIds(vlans) && v != vlans[i].value
    {
      if v in UsedIds(vlans) {
        var k :| 0 <= k < |vlans| && vlans[k] == Some(v);
        if k != i {
          assert after[if k < i then k else k - 1] == Some(v);
        }
      }
      if v in UsedIds(after) {
        var k :| 0 <= k < |after| && after[k] == Some(v);
        assert vlans[if k < i then k else k + 1] == Some(v);
      }
    }
  }
}
