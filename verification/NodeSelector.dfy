/** The node selector flag of the manager, "key1=value1,key2=value2". */
module NodeSelector {
  import opened Text

  type Labels = map<string, string>

  /** What one part between commas sets; blank parts set nothing. */
  type Setting = Option<(string, string)>

  /** Everything after the first "=" is the value. */
  function Decode(part: string): Setting {
    var entry := Trim(part, GoSpace);
    if entry == "" then None
    else
      match Cut(entry, '=')
      case None => Some((entry, ""))
      case Some((key, value)) => Some((key, value))
  }

  function DecodeAll(parts: seq<string>): seq<Setting> {
    Map(Decode, parts)
  }

  function Apply(labels: Labels, setting: Setting): Labels {
    if setting.None? then labels else labels[setting.value.0 := setting.value.1]
  }

  function ApplyAll(labels: Labels, settings: seq<Setting>): Labels {
    if settings == [] then labels
    else
      var last := |settings| - 1;
      Apply(ApplyAll(labels, settings[..last]), settings[last])
  }

  function Settings(s: string): seq<Setting> {
    DecodeAll(Split(s, ','))
  }

  function Parse(s: string): Labels {
    ApplyAll(map[], Settings(s))
  }

  lemma ApplyNext(settings: seq<Setting>, i: nat)
    requires i < |settings|
    ensures ApplyAll(map[], settings[..i + 1]) == Apply(ApplyAll(map[], settings[..i]), settings[i])
  {
    assert settings[..i + 1][..i] == settings[..i];
  }

  method ParseNodeSelector(s: string) returns (result: Labels)
    ensures result == Parse(s)
  {
    result := map[];
    var parts := Split(s, ',');
    ghost var settings := DecodeAll(parts);
    for i := 0 to |parts|
      invariant result == ApplyAll(map[], settings[..i])
    {
      ApplyNext(settings, i);
      var entry := Trim(parts[i], GoSpace);
      if entry == "" {
        assert settings[i] == None;
        continue;
      }
      match Cut(entry, '=') {
        case Some((key, value)) =>
          assert settings[i] == Some((key, value));
          result := result[key := value];
        case None =>
          assert settings[i] == Some((entry, ""));
          result := result[entry := ""];
      }
    }
    assert settings[..|parts|] == settings;
  }

  // ---- meaning ----

  predicate Sets(setting: Setting, key: string) {
    setting.Some? && setting.value.0 == key
  }

  /** The last setting of `key`, or -1. */
  function LastSetter(settings: seq<Setting>, key: string): (i: int)
    ensures -1 <= i < |settings|
    ensures i >= 0 ==> Sets(settings[i], key)
    ensures forall j :: i < j < |settings| ==> !Sets(settings[j], key)
  {
    if settings == [] then -1
    else
      var last := |settings| - 1;
      if Sets(settings[last], key) then last else LastSetter(settings[..last], key)
  }

  lemma {:induction false} ApplyAllMeaning(labels: Labels, settings: seq<Setting>, key: string)
    ensures var i, r := LastSetter(settings, key), ApplyAll(labels, settings);
            && (key in r <==> i >= 0 || key in labels)
            && (key in r ==> r[key] == if i >= 0 then settings[i].value.1 else labels[key])
  {
    if settings != [] {
      ApplyAllMeaning(labels, settings[..|settings| - 1], key);
    }
  }

  /** A key is selected exactly when some entry names it, and the last such entry gives its
      value. */
  lemma LastEntryWins(s: string, key: string)
    ensures var i := LastSetter(Settings(s), key);
            (key in Parse(s) <==> i >= 0) && (i >= 0 ==> Parse(s)[key] == Settings(s)[i].value.1)
  {
    ApplyAllMeaning(map[], Settings(s), key);
  }

  lemma {:induction false} ApplyAllConcat(labels: Labels, a: seq<Setting>, b: seq<Setting>)
    ensures ApplyAll(labels, a + b) == ApplyAll(ApplyAll(labels, a), b)
    decreases |b|
  {
    if b == [] {
      assert a + b == a;
    } else {
      var last := |b| - 1;
      assert (a + b)[..|a + b| - 1] == a + b[..last];
      ApplyAllConcat(labels, a, b[..last]);
    }
  }

  lemma {:induction false} ApplyAllMerges(labels: Labels, settings: seq<Setting>)
    ensures ApplyAll(labels, settings) == labels + ApplyAll(map[], settings)
  {
    if settings == [] {
      MergeEmpty(labels);
    } else {
      ApplyAllMerges(labels, settings[..|settings| - 1]);
    }
  }

  lemma MergeEmpty(labels: Labels)
    ensures map[] + labels == labels == labels + map[]
  {}

  /** Joining two selectors with a comma merges their maps; the right one wins. */
  lemma CommaMerges(a: string, b: string)
    ensures Parse(a + [','] + b) == Parse(a) + Parse(b)
  {
    SplitConcat(a, b, ',');
    MapConcat(Decode, Split(a, ','), Split(b, ','));
    ApplyAllConcat(map[], Settings(a), Settings(b));
    ApplyAllMerges(Parse(a), Settings(b));
  }

  predicate Blank(s: string) {
    All(s, GoSpace)
  }

  lemma OneEntry(s: string)
    requires ',' !in s && Decode(s).Some?
    ensures Parse(s) == map[Decode(s).value.0 := Decode(s).value.1]
  {
    assert Settings(s) == [Decode(s)];
    assert [Decode(s)][..0] == [];
    assert ApplyAll(map[], [Decode(s)]) == Apply(ApplyAll(map[], [Decode(s)][..0]), Decode(s));
  }

  lemma NoComma(l: string, entry: string, r: string)
    requires Blank(l) && Blank(r) && ',' !in entry
    ensures ',' !in l + entry + r
  {}

  lemma PaddedEntry(l: string, entry: string, r: string, key: string, value: string)
    requires Blank(l) && Blank(r) && ',' !in entry
    requires entry != "" && !GoSpace(entry[0]) && !GoSpace(entry[|entry| - 1])
    requires (Cut(entry, '=') == Some((key, value))) || (Cut(entry, '=') == None && key == entry && value == "")
    ensures Parse(l + entry + r) == map[key := value]
  {
    NoComma(l, entry, r);
    TrimPadding(l, entry, r, GoSpace);
    OneEntry(l + entry + r);
  }

  /** An entry without "=" sets itself, without the space around it, to "". */
  lemma BareKey(l: string, entry: string, r: string)
    requires Blank(l) && Blank(r) && entry != "" && !GoSpace(entry[0]) && !GoSpace(entry[|entry| - 1])
    requires ',' !in entry && '=' !in entry
    ensures Parse(l + entry + r) == map[entry := ""]
  {
    PaddedEntry(l, entry, r, entry, "");
  }

  /** An entry with "=" sets what is before the first one to all that is after it; only the space
      around the whole entry is dropped. */
  lemma KeyAndValue(l: string, key: string, value: string, r: string)
    requires Blank(l) && Blank(r) && ',' !in key && ',' !in value && '=' !in key
    requires (key != "" ==> !GoSpace(key[0])) && (value != "" ==> !GoSpace(value[|value| - 1]))
    ensures Parse(l + (key + "=" + value) + r) == map[key := value]
  {
    var entry := key + ['='] + value;
    assert entry == key + "=" + value;
    assert entry[0] == (if key == "" then '=' else key[0]);
    assert entry[|entry| - 1] == (if value == "" then '=' else value[|value| - 1]);
    CutUnique(entry, '=', key, value);
    PaddedEntry(l, entry, r, key, value);
  }

  /** Every entry is blank or one of these two. */
  lemma EntryCases(s: string)
    returns (l: string, entry: string, r: string)
    ensures s == l + entry + r && Blank(l) && Blank(r)
    ensures entry != "" ==> !GoSpace(entry[0]) && !GoSpace(entry[|entry| - 1])
  {
    l, r := TrimSplits(s, GoSpace);
    entry := Trim(s, GoSpace);
  }

  lemma {:induction false} TrimBlank(s: string)
    requires Blank(s)
    ensures TrimLeft(s, GoSpace) == ""
  {
    if s != "" {
      TrimBlank(s[1..]);
    }
  }

  lemma BlankSelectsNothing(blank: string)
    requires Blank(blank)
    ensures Parse(blank) == map[]
  {
    TrimBlank(blank);
    assert ',' !in blank;
    assert Settings(blank) == [None];
    assert ApplyAll(map[], [None][..0]) == map[];
  }

  /** A blank entry changes nothing at the front, at the end or between two selectors. */
  lemma BlankFirst(blank: string, b: string)
    requires Blank(blank)
    ensures Parse(blank + [','] + b) == Parse(b)
  {
    BlankSelectsNothing(blank);
    CommaMerges(blank, b);
    MergeEmpty(Parse(b));
  }

  lemma BlankLast(a: string, blank: string)
    requires Blank(blank)
    ensures Parse(a + [','] + blank) == Parse(a)
  {
    BlankSelectsNothing(blank);
    CommaMerges(a, blank);
    MergeEmpty(Parse(a));
  }

  lemma BlankBetween(a: string, blank: string, b: string)
    requires Blank(blank)
    ensures Parse(a + [','] + (blank + [','] + b)) == Parse(a + [','] + b)
  {
    BlankFirst(blank, b);
    CommaMerges(a, blank + [','] + b);
    CommaMerges(a, b);
  }

  // ---- round trip ----

  predicate CleanKey(key: string) {
    ',' !in key && '=' !in key && (key != "" ==> !GoSpace(key[0]))
  }

  predicate CleanValue(value: string) {
    ',' !in value && (value != "" ==> !GoSpace(value[|value| - 1]))
  }

  function PrintEntry(e: (string, string)): string {
    e.0 + ['='] + e.1
  }

  function PrintEntries(entries: seq<(string, string)>): seq<string> {
    seq(|entries|, i requires 0 <= i < |entries| => PrintEntry(entries[i]))
  }

  /** The map's entries, in the order in which they are listed. */
  function Print(entries: seq<(string, string)>): string {
    Join(PrintEntries(entries), ',')
  }

  function MapOf(entries: seq<(string, string)>): Labels {
    if entries == [] then map[]
    else
      var last := |entries| - 1;
      MapOf(entries[..last])[entries[last].0 := entries[last].1]
  }

  predicate DistinctKeys(entries: seq<(string, string)>) {
    forall i, j :: 0 <= i < j < |entries| ==> entries[i].0 != entries[j].0
  }

  ghost predicate AllClean(entries: seq<(string, string)>) {
    forall i :: 0 <= i < |entries| ==> CleanKey(entries[i].0) && CleanValue(entries[i].1)
  }

  ghost predicate CleanLabels(labels: Labels) {
    forall key :: key in labels ==> CleanKey(key) && CleanValue(labels[key])
  }

  /** Whatever is parsed is clean. */
  lemma {:induction false} AppliedIsClean(settings: seq<Setting>)
    requires forall e :: e in settings && e.Some? ==> CleanKey(e.value.0) && CleanValue(e.value.1)
    ensures CleanLabels(ApplyAll(map[], settings))
  {
    if settings != [] {
      AppliedIsClean(settings[..|settings| - 1]);
      assert settings[|settings| - 1] in settings;
    }
  }

  lemma DecodedIsClean(part: string)
    requires ',' !in part
    ensures var e := Decode(part); e.Some? ==> CleanKey(e.value.0) && CleanValue(e.value.1)
  {
    var entry := Trim(part, GoSpace);
    assert ',' !in entry;
    if entry != "" {
      EntryIsClean(entry);
    }
  }

  lemma EntryIsClean(entry: string)
    requires entry != "" && ',' !in entry && !GoSpace(entry[0]) && !GoSpace(entry[|entry| - 1])
    ensures Cut(entry, '=').None? ==> CleanKey(entry)
    ensures Cut(entry, '=').Some? ==> CleanKey(Cut(entry, '=').value.0) && CleanValue(Cut(entry, '=').value.1)
  {
    match Cut(entry, '=')
    case None =>
    case Some((key, value)) =>
      assert entry == key + ['='] + value;
      assert forall c :: c in key || c in value ==> c in entry;
      assert key != "" ==> entry[0] == key[0];
      assert value != "" ==> entry[|entry| - 1] == value[|value| - 1];
  }

  lemma ParsedIsClean(s: string)
    ensures CleanLabels(Parse(s))
  {
    var parts := Split(s, ',');
    forall i | 0 <= i < |parts|
      ensures var e := Decode(parts[i]); e.Some? ==> CleanKey(e.value.0) && CleanValue(e.value.1)
    {
      assert parts[i] in parts;
      DecodedIsClean(parts[i]);
    }
    AppliedIsClean(Settings(s));
  }

  lemma PrintedEnds(e: (string, string))
    requires CleanKey(e.0) && CleanValue(e.1)
    ensures var s := PrintEntry(e);
            s != "" && !GoSpace(s[0]) && !GoSpace(s[|s| - 1]) && ',' !in s && '=' !in e.0
  {
    var s := PrintEntry(e);
    assert s[0] == if e.0 == "" then '=' else e.0[0];
    assert s[|s| - 1] == if e.1 == "" then '=' else e.1[|e.1| - 1];
  }

  lemma DecodePrinted(e: (string, string))
    requires CleanKey(e.0) && CleanValue(e.1)
    ensures Decode(PrintEntry(e)) == Some(e) && ',' !in PrintEntry(e)
  {
    var s := PrintEntry(e);
    PrintedEnds(e);
    TrimNothing(s, GoSpace);
    CutUnique(s, '=', e.0, e.1);
  }

  lemma {:induction false} MapOfIsApplied(entries: seq<(string, string)>, settings: seq<Setting>)
    requires |settings| == |entries| && forall i :: 0 <= i < |entries| ==> settings[i] == Some(entries[i])
    ensures ApplyAll(map[], settings) == MapOf(entries)
  {
    if entries != [] {
      var last := |entries| - 1;
      MapOfIsApplied(entries[..last], settings[..last]);
    }
  }

  lemma {:induction false} MapOfHas(entries: seq<(string, string)>, i: nat)
    requires DistinctKeys(entries) && i < |entries|
    ensures entries[i].0 in MapOf(entries) && MapOf(entries)[entries[i].0] == entries[i].1
    decreases |entries|
  {
    var last := |entries| - 1;
    if i < last {
      MapOfHas(entries[..last], i);
    }
  }

  lemma CleanRoundTrip(entries: seq<(string, string)>)
    requires AllClean(entries)
    ensures Parse(Print(entries)) == MapOf(entries)
  {
    if entries == [] {
      BlankSelectsNothing("");
    } else {
      var parts := PrintEntries(entries);
      forall i | 0 <= i < |entries|
        ensures Decode(parts[i]) == Some(entries[i]) && ',' !in parts[i]
      {
        DecodePrinted(entries[i]);
      }
      SplitJoin(parts, ',');
      MapOfIsApplied(entries, Settings(Print(entries)));
    }
  }

  /** Printing a map and parsing it back gives the map if and only if every key is free of
      commas, equals signs and leading space and every value of commas and trailing space. */
  lemma RoundTrip(entries: seq<(string, string)>)
    requires DistinctKeys(entries)
    ensures Parse(Print(entries)) == MapOf(entries) <==> AllClean(entries)
  {
    if AllClean(entries) {
      CleanRoundTrip(entries);
    }
    ParsedIsClean(Print(entries));
    if Parse(Print(entries)) == MapOf(entries) {
      forall i | 0 <= i < |entries|
        ensures CleanKey(entries[i].0) && CleanValue(entries[i].1)
      {
        MapOfHas(entries, i);
      }
    }
  }
}
