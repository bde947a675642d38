/** What a program can write through a slice of networks, and what such writes leave alone: after a
    deep copy, writes through either slice never reach the other. */
module CopyWrites {
  import opened Text
  import opened DeepCopy

  // ---- one write: a path into the slice and what is stored there ----

  /** Store a new slice (or nil), or an element of the slice that is there. */
  datatype SliceWrite<T> = MakeSlice(elements: Option<seq<T>>) | SetElement(k: nat, element: T)

  /** Store a new pointer (or nil), or what the pointer that is there points to. */
  datatype PointerWrite<T> = MakePointer(pointee: Option<T>) | SetPointee(value: T)

  datatype DnsWrite =
    | InNameservers(servers: SliceWrite<string>)
    | InSearchDomains(domains: SliceWrite<string>)
    | SetLocalDomain(local: string)

  datatype OptionsWrite =
    | SetRouter(router: string)
    | InMtu(mtu: PointerWrite<int>)
    | InNtpServers(ntps: SliceWrite<string>)
    | InCustom(customs: SliceWrite<string>)

  datatype FlatWrite =
    | InEnabled(enabled: PointerWrite<bool>)
    | InRange(range: PointerWrite<Range>)
    | SetLeaseTime(leaseTime: string)
    | InReservations(reservations: SliceWrite<Reservation>)

  datatype DhcpWrite =
    | InFlat(flat: FlatWrite)
    | NewDns(dnsPresent: bool)
    | InDns(dns: DnsWrite)
    | NewOptions(optionsPresent: bool)
    | InOptions(options: OptionsWrite)

  // ---- what a write means for the value ----

  function SliceAfter<T>(slice: Option<seq<T>>, w: SliceWrite<T>): Option<seq<T>> {
    match w
    case MakeSlice(elements) => elements
    case SetElement(k, x) => if slice.Some? && k < |slice.value| then Some(slice.value[k := x]) else slice
  }

  function PointeeAfter<T>(pointee: Option<T>, w: PointerWrite<T>): Option<T> {
    match w
    case MakePointer(new') => new'
    case SetPointee(x) => if pointee.Some? then Some(x) else None
  }

  function DnsAfter(v: DnsValue, w: DnsWrite): DnsValue {
    match w
    case InNameservers(s) => v.(nameservers := SliceAfter(v.nameservers, s))
    case InSearchDomains(s) => v.(searchDomains := SliceAfter(v.searchDomains, s))
    case SetLocalDomain(local) => v.(localDomain := local)
  }

  function OptionsAfter(v: OptionsValue, w: OptionsWrite): OptionsValue {
    match w
    case SetRouter(router) => v.(router := router)
    case InMtu(p) => v.(mtu := PointeeAfter(v.mtu, p))
    case InNtpServers(s) => v.(ntpServers := SliceAfter(v.ntpServers, s))
    case InCustom(s) => v.(custom := SliceAfter(v.custom, s))
  }

  function FlatAfter(v: FlatValue, w: FlatWrite): FlatValue {
    match w
    case InEnabled(p) => v.(enabled := PointeeAfter(v.enabled, p))
    case InRange(p) => v.(range := PointeeAfter(v.range, p))
    case SetLeaseTime(leaseTime) => v.(leaseTime := leaseTime)
    case InReservations(s) => v.(reservations := SliceAfter(v.reservations, s))
  }

  function DhcpAfter(v: DhcpValue, w: DhcpWrite): DhcpValue {
    match w
    case InFlat(f) =>
      var flat := FlatAfter(FlatValue(v.enabled, v.range, v.leaseTime, v.reservations), f);
      DhcpValue(flat.enabled, flat.range, flat.leaseTime, flat.reservations, v.dns, v.options)
    case NewDns(present) => v.(dns := if present then Some(DnsValue(None, None, "")) else None)
    case InDns(d) => v.(dns := if v.dns.Some? then Some(DnsAfter(v.dns.value, d)) else None)
    case NewOptions(present) => v.(options := if present then Some(OptionsValue("", None, None, None)) else None)
    case InOptions(o) => v.(options := if v.options.Some? then Some(OptionsAfter(v.options.value, o)) else None)
  }

  // ---- the objects that writes can reach ----

  ghost function Pointers(d: NetworkDhcp): set<object>
    reads d
  {
    d.FlatRefs() + Refs(d.dns) + Refs(d.options)
  }

  /** The pointers of the objects in `space` stay in `space`. */
  ghost predicate Closed(space: set<object>)
    reads space
  {
    && (forall d: NetworkDhcp :: d in space ==> Pointers(d) <= space)
    && (forall d: DhcpDnsConfig :: d in space ==> d.Owned() <= space)
    && (forall o: DhcpOptions :: o in space ==> o.Owned() <= space)
  }

  /** Closed but for the pointers of `o`, on which this does not depend. */
  ghost predicate ClosedExcept(space: set<object>, o: object)
    reads space - {o}
  {
    && (forall d: NetworkDhcp :: d in space && d != o ==> Pointers(d) <= space)
    && (forall d: DhcpDnsConfig :: d in space && d != o ==> d.Owned() <= space)
    && (forall p: DhcpOptions :: p in space && p != o ==> p.Owned() <= space)
  }

  // ---- the writes ----

  /** An index out of range or a nil slice panics, which writes nothing. */
  method WriteSlice<T>(slice: array?<T>, w: SliceWrite<T>) returns (out: array?<T>)
    modifies slice
    ensures out == slice || fresh(Refs(out))
    ensures Elements(out) == SliceAfter(old(Elements(slice)), w)
  {
    out := slice;
    match w {
      case MakeSlice(elements) =>
        if elements.None? {
          return null;
        }
        var s := elements.value;
        out := new T[|s|](i requires 0 <= i < |s| => s[i]);
        assert out[..] == s;
      case SetElement(k, x) =>
        if slice != null && k < slice.Length {
          slice[k] := x;
        }
    }
  }

  method WritePointer<T>(pointer: Cell?<T>, w: PointerWrite<T>) returns (out: Cell?<T>)
    modifies pointer
    ensures out == pointer || fresh(Refs(out))
    ensures Pointee(out) == PointeeAfter(old(Pointee(pointer)), w)
  {
    out := pointer;
    match w {
      case MakePointer(pointee) =>
        if pointee.None? {
          return null;
        }
        out := new Cell(pointee.value);
      case SetPointee(x) =>
        if pointer != null {
          pointer.value := x;
        }
    }
  }

  method UpdateDns(d: DhcpDnsConfig, w: DnsWrite)
    modifies d, d.Owned()
    ensures fresh(d.Owned() - old(d.Owned()))
    ensures old(d.Tree()) ==> d.Tree() && d.Value() == DnsAfter(old(d.Value()), w)
  {
    match w {
      case InNameservers(s) => d.nameservers := WriteSlice(d.nameservers, s);
      case InSearchDomains(s) => d.searchDomains := WriteSlice(d.searchDomains, s);
      case SetLocalDomain(local) => d.localDomain := local;
    }
  }

  method UpdateOptions(o: DhcpOptions, w: OptionsWrite)
    modifies o, o.Owned()
    ensures fresh(o.Owned() - old(o.Owned()))
    ensures old(o.Tree()) ==> o.Tree() && o.Value() == OptionsAfter(old(o.Value()), w)
  {
    match w {
      case SetRouter(router) => o.router := router;
      case InMtu(p) => o.mtu := WritePointer(o.mtu, p);
      case InNtpServers(s) => o.ntpServers := WriteSlice(o.ntpServers, s);
      case InCustom(s) => o.custom := WriteSlice(o.custom, s);
    }
  }

  /** The pointers to plain values. */
  method UpdateFlat(d: NetworkDhcp, w: FlatWrite)
    modifies d, d.FlatRefs()
    ensures d.dns == old(d.dns) && d.options == old(d.options)
    ensures fresh(d.FlatRefs() - old(d.FlatRefs()))
    ensures d.Flat() == FlatAfter(old(d.Flat()), w)
  {
    match w {
      case InEnabled(p) => d.enabled := WritePointer(d.enabled, p);
      case InRange(p) => d.range := WritePointer(d.range, p);
      case SetLeaseTime(leaseTime) => d.leaseTime := leaseTime;
      case InReservations(s) => d.reservations := WriteSlice(d.reservations, s);
    }
  }

  // ---- with the space they reach ----

  method WriteDns(d: DhcpDnsConfig, w: DnsWrite, ghost space: set<object>) returns (ghost grown: set<object>)
    requires d in space && Closed(space)
    modifies d, d.Owned()
    ensures grown == space + d.Owned() && fresh(grown - space) && Closed(grown)
    ensures fresh(d.Owned() - old(d.Owned()))
    ensures old(d.Tree()) ==> d.Tree() && d.Value() == DnsAfter(old(d.Value()), w)
  {
    UpdateDns(d, w);
    grown := space + d.Owned();
  }

  method WriteOptions(o: DhcpOptions, w: OptionsWrite, ghost space: set<object>) returns (ghost grown: set<object>)
    requires o in space && Closed(space)
    modifies o, o.Owned()
    ensures grown == space + o.Owned() && fresh(grown - space) && Closed(grown)
    ensures fresh(o.Owned() - old(o.Owned()))
    ensures old(o.Tree()) ==> o.Tree() && o.Value() == OptionsAfter(old(o.Value()), w)
  {
    UpdateOptions(o, w);
    grown := space + o.Owned();
  }

  /** Plain values are no structures that hold pointers. */
  lemma FlatApart(d: NetworkDhcp, space: set<object>)
    ensures forall p: NetworkDhcp :: p in space ==> p !in d.FlatRefs()
    ensures forall p: DhcpDnsConfig :: p in space ==> p !in d.FlatRefs()
    ensures forall p: DhcpOptions :: p in space ==> p !in d.FlatRefs()
  {}

  method WriteFlat(d: NetworkDhcp, w: FlatWrite, ghost space: set<object>) returns (ghost grown: set<object>)
    requires d in space && Closed(space)
    modifies d, d.FlatRefs()
    ensures grown == space + d.FlatRefs() && fresh(grown - space) && Closed(grown)
    ensures d.dns == old(d.dns) && d.options == old(d.options)
    ensures fresh(d.FlatRefs() - old(d.FlatRefs()))
    ensures d.Flat() == FlatAfter(old(d.Flat()), w)
  {
    assert d.FlatRefs() <= Pointers(d) <= space;
    FlatApart(d, space);
    UpdateFlat(d, w);
    FlatApart(d, space);
    grown := space + d.FlatRefs();
    assert grown - space <= d.FlatRefs() - old(d.FlatRefs());
    forall p: NetworkDhcp | p in grown
      ensures Pointers(p) <= grown
    {
      assert p in space; if p != d { assert p !in old(d.FlatRefs()) && unchanged(p); }
    }
    forall p: DhcpDnsConfig | p in grown
      ensures p.Owned() <= grown
    {
      assert p in space; assert p !in old(d.FlatRefs()) && unchanged(p);
    }
    forall p: DhcpOptions | p in grown
      ensures p.Owned() <= grown
    {
      assert p in space; assert p !in old(d.FlatRefs()) && unchanged(p);
    }
  }

  method WriteInFlat(d: NetworkDhcp, w: FlatWrite, ghost space: set<object>) returns (ghost grown: set<object>)
    requires d in space && Closed(space)
    modifies d.Footprint()
    ensures space <= grown && fresh(grown - space) && Closed(grown)
    ensures old(d.Tree()) ==>
              && d.Tree() && fresh(d.Owned() - old(d.Owned()))
              && d.Value() == DhcpAfter(old(d.Value()), InFlat(w))
  {
    d.ValueOfParts();
    grown := WriteFlat(d, w, space);
    if old(d.Tree()) {
      d.DnsKept();
      d.OptionsKept();
      d.ValueOfParts();
      d.TreeOfParts();
    }
  }

  method ReplaceDns(d: NetworkDhcp, present: bool)
    modifies d
    ensures fresh(Refs(d.dns))
    ensures d.DnsFootprint() == Refs(d.dns) && (d.dns != null ==> d.dns.Tree())
    ensures d.DnsOf() == if present then Some(DnsValue(None, None, "")) else None
    ensures d.Flat() == old(d.Flat()) && d.FlatRefs() == old(d.FlatRefs())
    ensures d.OptionsOf() == old(d.OptionsOf()) && d.OptionsFootprint() == old(d.OptionsFootprint())
    ensures d.options == old(d.options) && (d.options != null ==> d.options.Tree() == old(d.options.Tree()))
    ensures d.FlatRefs() !! d.DnsFootprint() && d.OptionsFootprint() !! d.DnsFootprint()
  {
    d.dns := null;
    if present {
      d.dns := new DhcpDnsConfig();
    }
    d.FlatKept();
    d.OptionsKept();
  }

  /** A new structure of zero values, or nil. */
  method NewDnsIn(d: NetworkDhcp, present: bool)
    modifies d
    ensures fresh(Refs(d.dns)) && (d.dns != null ==> d.dns.Owned() == {})
    ensures d.FlatRefs() == old(d.FlatRefs()) && d.options == old(d.options)
    ensures old(d.Tree()) ==>
              && d.Tree() && fresh(d.Owned() - old(d.Owned()))
              && d.Value() == DhcpAfter(old(d.Value()), NewDns(present))
  {
    d.ValueOfParts();
    ReplaceDns(d, present);
    if old(d.Tree()) {
      d.ValueOfParts();
      d.TreeOfParts();
    }
  }

  method WriteNewDns(d: NetworkDhcp, present: bool, ghost space: set<object>) returns (ghost grown: set<object>)
    requires d in space && Closed(space)
    modifies d.Footprint()
    ensures space <= grown && fresh(grown - space) && Closed(grown)
    ensures old(d.Tree()) ==>
              && d.Tree() && fresh(d.Owned() - old(d.Owned()))
              && d.Value() == DhcpAfter(old(d.Value()), NewDns(present))
  {
    assert Pointers(d) <= space && ClosedExcept(space, d);
    NewDnsIn(d, present);
    grown := space + Refs(d.dns);
    assert ClosedExcept(space, d) && Pointers(d) <= grown;
  }

  method WriteInDns(d: NetworkDhcp, w: DnsWrite, ghost space: set<object>) returns (ghost grown: set<object>)
    requires d in space && Closed(space)
    modifies d.Footprint()
    ensures space <= grown && fresh(grown - space) && Closed(grown)
    ensures old(d.Tree()) ==>
              && d.Tree() && fresh(d.Owned() - old(d.Owned()))
              && d.Value() == DhcpAfter(old(d.Value()), InDns(w))
  {
    if d.dns == null {
      return space;
    }
    d.ValueOfParts();
    grown := WriteDns(d.dns, w, space);
    if old(d.Tree()) {
      d.FlatKept();
      d.OptionsKept();
      d.ValueOfParts();
      d.TreeOfParts();
    }
  }

  method ReplaceOptions(d: NetworkDhcp, present: bool)
    modifies d
    ensures fresh(Refs(d.options))
    ensures d.OptionsFootprint() == Refs(d.options) && (d.options != null ==> d.options.Tree())
    ensures d.OptionsOf() == if present then Some(OptionsValue("", None, None, None)) else None
    ensures d.Flat() == old(d.Flat()) && d.FlatRefs() == old(d.FlatRefs())
    ensures d.DnsOf() == old(d.DnsOf()) && d.DnsFootprint() == old(d.DnsFootprint())
    ensures d.dns == old(d.dns) && (d.dns != null ==> d.dns.Tree() == old(d.dns.Tree()))
    ensures d.FlatRefs() !! d.OptionsFootprint() && d.DnsFootprint() !! d.OptionsFootprint()
  {
    d.options := null;
    if present {
      d.options := new DhcpOptions();
    }
    d.FlatKept();
    d.DnsKept();
  }

  /** A new structure of zero values, or nil. */
  method NewOptionsIn(d: NetworkDhcp, present: bool)
    modifies d
    ensures fresh(Refs(d.options)) && (d.options != null ==> d.options.Owned() == {})
    ensures d.FlatRefs() == old(d.FlatRefs()) && d.dns == old(d.dns)
    ensures old(d.Tree()) ==>
              && d.Tree() && fresh(d.Owned() - old(d.Owned()))
              && d.Value() == DhcpAfter(old(d.Value()), NewOptions(present))
  {
    d.ValueOfParts();
    ReplaceOptions(d, present);
    if old(d.Tree()) {
      d.ValueOfParts();
      d.TreeOfParts();
    }
  }

  method WriteNewOptions(d: NetworkDhcp, present: bool, ghost space: set<object>) returns (ghost grown: set<object>)
    requires d in space && Closed(space)
    modifies d.Footprint()
    ensures space <= grown && fresh(grown - space) && Closed(grown)
    ensures old(d.Tree()) ==>
              && d.Tree() && fresh(d.Owned() - old(d.Owned()))
              && d.Value() == DhcpAfter(old(d.Value()), NewOptions(present))
  {
    assert Pointers(d) <= space && ClosedExcept(space, d);
    NewOptionsIn(d, present);
    grown := space + Refs(d.options);
    assert ClosedExcept(space, d) && Pointers(d) <= grown;
  }

  method WriteInOptions(d: NetworkDhcp, w: OptionsWrite, ghost space: set<object>) returns (ghost grown: set<object>)
    requires d in space && Closed(space)
    modifies d.Footprint()
    ensures space <= grown && fresh(grown - space) && Closed(grown)
    ensures old(d.Tree()) ==>
              && d.Tree() && fresh(d.Owned() - old(d.Owned()))
              && d.Value() == DhcpAfter(old(d.Value()), InOptions(w))
  {
    if d.options == null {
      return space;
    }
    d.ValueOfParts();
    grown := WriteOptions(d.options, w, space);
    if old(d.Tree()) {
      d.FlatKept();
      d.DnsKept();
      d.ValueOfParts();
      d.TreeOfParts();
    }
  }

  method WriteDhcp(d: NetworkDhcp, w: DhcpWrite, ghost space: set<object>) returns (ghost grown: set<object>)
    requires d in space && Closed(space)
    modifies d.Footprint()
    ensures space <= grown && fresh(grown - space) && Closed(grown)
    ensures old(d.Tree()) ==>
              && d.Tree() && fresh(d.Owned() - old(d.Owned()))
              && d.Value() == DhcpAfter(old(d.Value()), w)
  {
    match w {
      case InFlat(f) => grown := WriteInFlat(d, f, space);
      case NewDns(present) => grown := WriteNewDns(d, present, space);
      case InDns(dns) => grown := WriteInDns(d, dns, space);
      case NewOptions(present) => grown := WriteNewOptions(d, present, space);
      case InOptions(options) => grown := WriteInOptions(d, options, space);
    }
  }

  // ---- writes through a slice of networks ----

  /** The fields of one type in the structures an element points to. */
  datatype StringsField = Nameservers | SearchDomains | NtpServers | CustomOptions

  /** A pointer or slice that is the only field of its type. */
  datatype Part = DnsPart | OptionsPart | EnabledPart | RangePart | ReservationsPart

  /** `Assign` copies one element over another, which makes the two share their DHCP settings; the
      `Share` writes copy a pointer or a slice header, within one element or from one to another.
      Together with the others these are the assignments Go's types allow: what is stored is a plain
      value, a new structure or slice, nil, or what another field of that type holds. An index out of
      range or a nil pointer panics, which writes nothing. */
  datatype Write =
    | SetName(i: nat, name: string)
    | SetNamespace(i: nat, namespace: string)
    | SetAddress(i: nat, address: string)
    | NewDhcp(i: nat, dhcpPresent: bool)
    | InDhcp(i: nat, dhcp: DhcpWrite)
    | Assign(i: nat, j: nat)
    | ShareDhcp(i: nat, j: nat)
    | SharePart(i: nat, j: nat, part: Part)
    | ShareMtu(i: nat, j: nat)
    | ShareStrings(i: nat, to: StringsField, j: nat, from: StringsField)

  predicate Shares(w: Write) {
    w.Assign? || w.ShareDhcp? || w.SharePart? || w.ShareMtu? || w.ShareStrings?
  }

  /** The new value of the element written to; what a write that shares means is left open. */
  function ElementAfter(v: NetworkValue, w: Write): NetworkValue {
    match w
    case SetName(_, name) => v.(name := name)
    case SetNamespace(_, namespace) => v.(namespace := namespace)
    case SetAddress(_, address) => v.(address := address)
    case NewDhcp(_, present) => v.(dhcp := if present then Some(DhcpValue(None, None, "", None, None, None)) else None)
    case InDhcp(_, d) => v.(dhcp := if v.dhcp.Some? then Some(DhcpAfter(v.dhcp.value, d)) else None)
    case _ => v
  }

  function ValuesAfter(values: seq<NetworkValue>, w: Write): seq<NetworkValue> {
    if w.i < |values| then values[w.i := ElementAfter(values[w.i], w)] else values
  }

  /** The DHCP settings the slice points to are in `space`. */
  ghost predicate Reaches(networks: seq<RouterNetwork>, space: set<object>) {
    forall i :: 0 <= i < |networks| ==> Refs(networks[i].dhcp) <= space
  }

  /** The networks hold `values` in `space`, where no object is reached in two ways. */
  ghost predicate Grove(networks: seq<RouterNetwork>, values: seq<NetworkValue>, space: set<object>)
    reads space
  {
    && |networks| == |values|
    && (forall i :: 0 <= i < |networks| ==>
                      Within(networks[i], space) && networks[i].Tree() && networks[i].Value() == values[i])
    && (forall i, j :: 0 <= i < j < |networks| ==> networks[i].Footprint() !! networks[j].Footprint())
  }

  lemma FootprintInside(d: NetworkDhcp, space: set<object>)
    requires d in space && Closed(space)
    ensures d.Footprint() <= space
  {
    assert Pointers(d) <= space;
    assert d.dns != null ==> d.dns in space;
    assert d.options != null ==> d.options in space;
  }

  twostate lemma ElementKept(network: RouterNetwork)
    requires forall o :: o in old(network.Footprint()) ==> unchanged(o)
    ensures network.Footprint() == old(network.Footprint()) && network.Value() == old(network.Value())
    ensures network.Tree() == old(network.Tree())
  {}

  lemma MakeGrove(networks: seq<RouterNetwork>, values: seq<NetworkValue>, region: set<object>)
    requires |networks| == |values|
    requires forall i :: 0 <= i < |networks| ==>
               networks[i].Footprint() <= region && networks[i].Tree() && networks[i].Value() == values[i]
    requires forall i, j :: 0 <= i < j < |networks| ==> networks[i].Footprint() !! networks[j].Footprint()
    ensures Grove(networks, values, region)
  {}

  /** A write into the DHCP settings of element `i`. */
  method WriteInDhcp(list: array<RouterNetwork>, i: nat, w: DhcpWrite, ghost space: set<object>)
    returns (ghost grown: set<object>)
    requires Closed(space) && Reaches(list[..], space) && list !in space
    requires i < list.Length && list[i].dhcp != null
    modifies list[i].dhcp.Footprint()
    ensures space <= grown && fresh(grown - space) && Closed(grown) && Reaches(list[..], grown) && list !in grown
    ensures list[..] == old(list[..])
    ensures old(list[i].dhcp.Tree()) ==>
              && list[i].dhcp.Tree() && fresh(list[i].dhcp.Owned() - old(list[i].dhcp.Owned()))
              && list[i].dhcp.Value() == DhcpAfter(old(list[i].dhcp.Value()), w)
    ensures list[i].dhcp.Footprint() <= grown
  {
    var d := list[i].dhcp;
    assert d in Refs(list[..][i].dhcp);
    FootprintInside(d, space);
    grown := WriteDhcp(d, w, space);
    FootprintInside(d, grown);
  }

  function Without<T>(s: seq<T>, i: nat): seq<T>
    requires i < |s|
  {
    s[..i] + s[i + 1..]
  }

  /** The other elements share nothing either, on what element `i` does not reach. */
  lemma TakeOut(networks: seq<RouterNetwork>, values: seq<NetworkValue>, space: set<object>, i: nat)
    requires Grove(networks, values, space) && i < |networks|
    ensures Grove(Without(networks, i), Without(values, i), space - networks[i].Footprint())
  {
    var others, rest := Without(networks, i), space - networks[i].Footprint();
    forall k | 0 <= k < |others|
      ensures others[k].Footprint() <= rest && others[k].Tree() && others[k].Value() == Without(values, i)[k]
    {
      var at := if k < i then k else k + 1;
      assert others[k] == networks[at] && networks[at].Footprint() !! networks[i].Footprint();
    }
    forall j, k | 0 <= j < k < |others|
      ensures others[j].Footprint() !! others[k].Footprint()
    {
      assert others[j] == networks[if j < i then j else j + 1] && others[k] == networks[if k < i then k else k + 1];
    }
    MakeGrove(others, Without(values, i), rest);
  }

  lemma PutBack(networks: seq<RouterNetwork>, values: seq<NetworkValue>, i: nat, v: NetworkValue,
                rest: set<object>, grown: set<object>)
    requires i < |networks| == |values| && Grove(Without(networks, i), Without(values, i), rest) && rest <= grown
    requires networks[i].Footprint() <= grown - rest && networks[i].Tree() && networks[i].Value() == v
    ensures Grove(networks, values[i := v], grown)
  {
    var others := Without(networks, i);
    forall k | 0 <= k < |networks| && k != i
      ensures networks[k] == others[if k < i then k else k - 1]
    {}
    MakeGrove(networks, values[i := v], grown);
  }

  method WriteInGrove(list: array<RouterNetwork>, i: nat, w: DhcpWrite,
                      ghost values: seq<NetworkValue>, ghost space: set<object>)
    returns (ghost grown: set<object>)
    requires Closed(space) && Reaches(list[..], space) && list !in space
    requires i < list.Length && list[i].dhcp != null
    modifies list[i].dhcp.Footprint()
    ensures space <= grown && fresh(grown - space) && Closed(grown) && Reaches(list[..], grown) && list !in grown
    ensures list[..] == old(list[..])
    ensures old(Grove(list[..], values, space)) ==> Grove(list[..], ValuesAfter(values, InDhcp(i, w)), grown)
  {
    ghost var networks, rest := list[..], space - list[i].dhcp.Footprint();
    if Grove(networks, values, space) {
      TakeOut(networks, values, space, i);
    }
    grown := WriteInDhcp(list, i, w, space);
    if old(Grove(networks, values, space)) {
      PutBack(networks, values, i, ElementAfter(values[i], InDhcp(i, w)), rest, grown);
    }
  }

  lemma StoreInGrove(networks: seq<RouterNetwork>, values: seq<NetworkValue>, space: set<object>,
                     i: nat, n: RouterNetwork, grown: set<object>)
    requires Grove(networks, values, space) && i < |networks| && space <= grown
    requires n.Footprint() <= grown && n.Tree()
    requires forall k :: 0 <= k < |networks| && k != i ==> networks[k].Footprint() !! n.Footprint()
    ensures Grove(networks[i := n], values[i := n.Value()], grown)
  {
    MakeGrove(networks[i := n], values[i := n.Value()], grown);
  }

  /** Store an element, whose objects are none that the others reach. */
  method StoreElement(list: array<RouterNetwork>, i: nat, n: RouterNetwork,
                      ghost values: seq<NetworkValue>, ghost space: set<object>, ghost grown: set<object>)
    requires i < list.Length && Reaches(list[..], space) && space <= grown && list !in grown && Refs(n.dhcp) <= grown
    requires Grove(list[..], values, space) ==>
               && n.Footprint() <= grown && n.Tree()
               && forall k :: 0 <= k < list.Length && k != i ==> list[..][k].Footprint() !! n.Footprint()
    modifies list
    ensures Reaches(list[..], grown)
    ensures old(Grove(list[..], values, space)) ==> Grove(list[..], values[i := n.Value()], grown)
  {
    ghost var networks := list[..];
    if Grove(networks, values, space) {
      StoreInGrove(networks, values, space, i, n, grown);
    }
    list[i] := n;
    assert list[..] == networks[i := n];
  }

  function WithField(n: RouterNetwork, w: Write): RouterNetwork {
    match w
    case SetName(_, name) => n.(name := name)
    case SetNamespace(_, namespace) => n.(namespace := namespace)
    case SetAddress(_, address) => n.(address := address)
    case _ => n
  }

  lemma FieldValue(n: RouterNetwork, w: Write)
    requires w.SetName? || w.SetNamespace? || w.SetAddress?
    ensures WithField(n, w).dhcp == n.dhcp && WithField(n, w).Footprint() == n.Footprint()
    ensures WithField(n, w).Tree() == n.Tree() && WithField(n, w).Value() == ElementAfter(n.Value(), w)
  {}

  /** The fields that are stored in the slice itself. */
  method WriteField(list: array<RouterNetwork>, w: Write, ghost values: seq<NetworkValue>, ghost space: set<object>)
    requires w.SetName? || w.SetNamespace? || w.SetAddress?
    requires Closed(space) && Reaches(list[..], space) && list !in space
    modifies list
    ensures Reaches(list[..], space)
    ensures old(Grove(list[..], values, space)) ==> Grove(list[..], ValuesAfter(values, w), space)
  {
    if w.i >= list.Length {
      return;
    }
    FieldValue(list[..][w.i], w);
    assert Refs(list[..][w.i].dhcp) <= space;
    StoreElement(list, w.i, WithField(list[w.i], w), values, space, space);
  }

  method MakeDhcp(present: bool, ghost space: set<object>) returns (d: NetworkDhcp?, ghost grown: set<object>)
    requires Closed(space)
    ensures d != null <==> present
    ensures grown == space + Refs(d) && fresh(Refs(d)) && Closed(grown)
    ensures d != null ==>
              d.Footprint() == {d} && d.Tree() && d.Value() == DhcpValue(None, None, "", None, None, None)
  {
    if !present {
      return null, space;
    }
    d := new NetworkDhcp();
    grown := space + {d};
    assert Pointers(d) == {};
  }

  lemma NewSettings(n: RouterNetwork, d: NetworkDhcp?, present: bool)
    requires d != null <==> present
    requires d != null ==>
               d.Footprint() == {d} && d.Tree() && d.Value() == DhcpValue(None, None, "", None, None, None)
    ensures n.(dhcp := d).Footprint() == Refs(d) && n.(dhcp := d).Tree()
    ensures forall i :: n.(dhcp := d).Value() == ElementAfter(n.Value(), NewDhcp(i, present))
  {}

  method StoreSettings(list: array<RouterNetwork>, i: nat, d: NetworkDhcp?, present: bool,
                       ghost values: seq<NetworkValue>, ghost space: set<object>)
    requires d != null <==> present
    requires d != null ==>
               d.Footprint() == {d} && d.Tree() && d.Value() == DhcpValue(None, None, "", None, None, None)
    requires i < list.Length && Reaches(list[..], space) && list !in space && Refs(d) !! space
    modifies list
    ensures Reaches(list[..], space + Refs(d))
    ensures old(Grove(list[..], values, space)) ==>
              Grove(list[..], ValuesAfter(values, NewDhcp(i, present)), space + Refs(d))
  {
    NewSettings(list[i], d, present);
    StoreElement(list, i, list[i].(dhcp := d), values, space, space + Refs(d));
  }

  method WriteNewDhcp(list: array<RouterNetwork>, i: nat, present: bool,
                      ghost values: seq<NetworkValue>, ghost space: set<object>)
    returns (ghost grown: set<object>)
    requires Closed(space) && Reaches(list[..], space) && list !in space
    modifies list
    ensures space <= grown && fresh(grown - space) && Closed(grown) && Reaches(list[..], grown) && list !in grown
    ensures old(Grove(list[..], values, space)) ==> Grove(list[..], ValuesAfter(values, NewDhcp(i, present)), grown)
  {
    grown := space;
    if i >= list.Length {
      return;
    }
    var d;
    d, grown := MakeDhcp(present, space);
    StoreSettings(list, i, d, present, values, space);
  }

  method CopyPart(d: NetworkDhcp, e: NetworkDhcp, part: Part, ghost space: set<object>)
    requires d in space && e in space && Closed(space)
    modifies d
    ensures Closed(space)
  {
    assert Pointers(e) <= space && ClosedExcept(space, d);
    match part {
      case DnsPart => d.dns := e.dns;
      case OptionsPart => d.options := e.options;
      case EnabledPart => d.enabled := e.enabled;
      case RangePart => d.range := e.range;
      case ReservationsPart => d.reservations := e.reservations;
    }
    assert ClosedExcept(space, d) && Pointers(d) <= space;
  }

  method CopyMtu(o: DhcpOptions, p: DhcpOptions, ghost space: set<object>)
    requires o in space && p in space && Closed(space)
    modifies o
    ensures Closed(space)
  {
    assert o.Owned() <= space && p.Owned() <= space && ClosedExcept(space, o);
    o.mtu := p.mtu;
    assert ClosedExcept(space, o);
  }

  predicate HasStrings(d: NetworkDhcp, field: StringsField)
    reads d
  {
    if field.Nameservers? || field.SearchDomains? then d.dns != null else d.options != null
  }

  function StringsOf(d: NetworkDhcp, field: StringsField): array?<string>
    requires HasStrings(d, field)
    reads d, d.dns, d.options
  {
    match field
    case Nameservers => d.dns.nameservers
    case SearchDomains => d.dns.searchDomains
    case NtpServers => d.options.ntpServers
    case CustomOptions => d.options.custom
  }

  lemma StringsInside(d: NetworkDhcp, field: StringsField, space: set<object>)
    requires d in space && Closed(space) && HasStrings(d, field)
    ensures Refs(StringsOf(d, field)) <= space
  {
    FootprintInside(d, space);
  }

  method SetDnsStrings(d: DhcpDnsConfig, field: StringsField, s: array?<string>, ghost space: set<object>)
    requires field.Nameservers? || field.SearchDomains?
    requires d in space && Closed(space) && Refs(s) <= space
    modifies d
    ensures Closed(space)
  {
    assert d.Owned() <= space && ClosedExcept(space, d);
    if field.Nameservers? {
      d.nameservers := s;
    } else {
      d.searchDomains := s;
    }
    assert ClosedExcept(space, d);
  }

  method SetOptionsStrings(o: DhcpOptions, field: StringsField, s: array?<string>, ghost space: set<object>)
    requires field.NtpServers? || field.CustomOptions?
    requires o in space && Closed(space) && Refs(s) <= space
    modifies o
    ensures Closed(space)
  {
    assert o.Owned() <= space && ClosedExcept(space, o);
    if field.NtpServers? {
      o.ntpServers := s;
    } else {
      o.custom := s;
    }
    assert ClosedExcept(space, o);
  }

  method CopyStrings(d: NetworkDhcp, to: StringsField, e: NetworkDhcp, from: StringsField, ghost space: set<object>)
    requires d in space && e in space && Closed(space) && HasStrings(d, to) && HasStrings(e, from)
    modifies Refs(d.dns) + Refs(d.options)
    ensures Closed(space)
  {
    FootprintInside(d, space);
    StringsInside(e, from, space);
    if to.Nameservers? || to.SearchDomains? {
      SetDnsStrings(d.dns, to, StringsOf(e, from), space);
    } else {
      SetOptionsStrings(d.options, to, StringsOf(e, from), space);
    }
  }

  /** A pointer or slice in the DHCP settings is copied from those of another element or the same. */
  method ShareInside(d: NetworkDhcp, e: NetworkDhcp, w: Write, ghost space: set<object>)
    requires w.SharePart? || w.ShareMtu? || w.ShareStrings?
    requires d in space && e in space && Closed(space)
    modifies space
    ensures Closed(space)
  {
    FootprintInside(d, space);
    FootprintInside(e, space);
    match w {
      case SharePart(_, _, part) => CopyPart(d, e, part, space);
      case ShareMtu(_, _) =>
        if d.options != null && e.options != null {
          CopyMtu(d.options, e.options, space);
        }
      case ShareStrings(_, to, _, from) =>
        if HasStrings(d, to) && HasStrings(e, from) {
          CopyStrings(d, to, e, from, space);
        }
    }
  }

  /** Writes that make fields share objects. */
  method WriteShared(list: array<RouterNetwork>, w: Write, ghost space: set<object>)
    requires Shares(w)
    requires Closed(space) && Reaches(list[..], space) && list !in space
    modifies list, space
    ensures Closed(space) && Reaches(list[..], space)
  {
    if w.i >= list.Length || w.j >= list.Length {
      return;
    }
    assert Refs(list[..][w.i].dhcp) <= space && Refs(list[..][w.j].dhcp) <= space;
    var d, e := list[w.i].dhcp, list[w.j].dhcp;
    if w.Assign? {
      list[w.i] := list[w.j];
    } else if w.ShareDhcp? {
      list[w.i] := list[w.i].(dhcp := e);
    } else if d != null && e != null {
      ghost var networks := list[..];
      ShareInside(d, e, w, space);
      assert list[..] == networks;
    }
  }

  /** One write through the slice. Whatever is shared, it touches only objects the slice reaches and
      new ones; where nothing is shared it does to the values what it says. */
  method WriteList(list: array<RouterNetwork>, w: Write, ghost values: seq<NetworkValue>, ghost space: set<object>)
    returns (ghost grown: set<object>)
    requires Closed(space) && Reaches(list[..], space) && list !in space
    modifies list, space
    ensures space <= grown && fresh(grown - space) && Closed(grown) && Reaches(list[..], grown) && list !in grown
    ensures old(Grove(list[..], values, space)) && !Shares(w) ==> Grove(list[..], ValuesAfter(values, w), grown)
  {
    grown := space;
    if Shares(w) {
      WriteShared(list, w, space);
    } else if w.NewDhcp? {
      grown := WriteNewDhcp(list, w.i, w.dhcpPresent, values, space);
    } else if w.InDhcp? {
      if w.i < list.Length && list[w.i].dhcp != null {
        assert list[w.i].dhcp in Refs(list[..][w.i].dhcp);
        FootprintInside(list[w.i].dhcp, space);
        grown := WriteInGrove(list, w.i, w.dhcp, values, space);
      } else {
        NothingWritten(list[..], values, space, w);
      }
    } else {
      WriteField(list, w, values, space);
    }
  }

  lemma NothingWritten(networks: seq<RouterNetwork>, values: seq<NetworkValue>, space: set<object>, w: Write)
    requires w.InDhcp? && (w.i < |networks| ==> networks[w.i].dhcp == null)
    ensures Grove(networks, values, space) ==> ValuesAfter(values, w) == values
  {
    if Grove(networks, values, space) && w.i < |networks| {
      assert networks[w.i].Value() == values[w.i];
    }
  }

  function AllAfter(values: seq<NetworkValue>, writes: seq<Write>): seq<NetworkValue>
    decreases |writes|
  {
    if writes == [] then values else AllAfter(ValuesAfter(values, writes[0]), writes[1..])
  }

  // ---- two slices that share nothing ----

  ghost predicate Apart(a: array<RouterNetwork>, spaceA: set<object>, b: array<RouterNetwork>, spaceB: set<object>)
    reads a, b, spaceA, spaceB
  {
    && Closed(spaceA) && Reaches(a[..], spaceA) && Closed(spaceB) && Reaches(b[..], spaceB)
    && a != b && a !in spaceA && b !in spaceB && spaceA + {a} !! spaceB + {b}
  }

  lemma HoldInside(networks: seq<RouterNetwork>, space: set<object>)
    requires Closed(space) && Reaches(networks, space)
    ensures Hold(networks, Values(networks), space)
  {
    forall i | 0 <= i < |networks|
      ensures Within(networks[i], space)
    {
      if networks[i].dhcp != null {
        assert networks[i].dhcp in Refs(networks[i].dhcp);
        FootprintInside(networks[i].dhcp, space);
      }
    }
  }

  /** Any sequence of writes through `a` keeps the slices apart and leaves everything `b` holds as it
      was; and where `a` shares nothing it holds what the writes say. */
  method WriteSide(a: array<RouterNetwork>, writes: seq<Write>, b: array<RouterNetwork>,
                   ghost values: seq<NetworkValue>, ghost spaceA: set<object>, ghost spaceB: set<object>)
    returns (ghost grown: set<object>)
    requires Apart(a, spaceA, b, spaceB)
    modifies a, spaceA
    ensures spaceA <= grown && fresh(grown - spaceA) && Apart(a, grown, b, spaceB)
    ensures b[..] == old(b[..]) && Values(b[..]) == old(Values(b[..]))
    ensures old(Grove(a[..], values, spaceA)) && (forall w :: w in writes ==> !Shares(w)) ==>
              Grove(a[..], AllAfter(values, writes), grown)
  {
    ghost var others, held := b[..], Values(b[..]);
    HoldInside(others, spaceB);
    grown := spaceA;
    ghost var now := values;
    for i := 0 to |writes|
      invariant spaceA <= grown && fresh(grown - spaceA) && Apart(a, grown, b, spaceB)
      invariant b[..] == others && Hold(others, held, spaceB)
      invariant old(Grove(a[..], values, spaceA)) && (forall w :: w in writes ==> !Shares(w)) ==>
                  Grove(a[..], now, grown) && AllAfter(now, writes[i..]) == AllAfter(values, writes)
    {
      grown := WriteList(a, writes[i], now, grown);
      now := ValuesAfter(now, writes[i]);
      assert writes[i..][1..] == writes[i + 1..];
    }
  }

  datatype Step = Step(onCopy: bool, write: Write)

  /** The writes through one of the two slices. */
  function Side(steps: seq<Step>, onCopy: bool): seq<Write> {
    if steps == [] then []
    else
      var last := |steps| - 1;
      Side(steps[..last], onCopy) + if steps[last].onCopy == onCopy then [steps[last].write] else []
  }

  ghost predicate SharesNothing(writes: seq<Write>) {
    forall w :: w in writes ==> !Shares(w)
  }

  lemma {:induction false} AllAfterLast(values: seq<NetworkValue>, writes: seq<Write>, w: Write)
    ensures AllAfter(values, writes + [w]) == ValuesAfter(AllAfter(values, writes), w)
    decreases |writes|
  {
    if writes == [] {
      assert [w][1..] == [];
    } else {
      assert (writes + [w])[0] == writes[0] && (writes + [w])[1..] == writes[1..] + [w];
      AllAfterLast(ValuesAfter(values, writes[0]), writes[1..], w);
    }
  }

  /** What a slice holds after its own writes, as long as they share nothing. */
  ghost predicate HoldsOwn(networks: seq<RouterNetwork>, values: seq<NetworkValue>, writes: seq<Write>,
                           space: set<object>)
    reads space
  {
    SharesNothing(writes) ==> Grove(networks, AllAfter(values, writes), space)
  }

  /** One write of an interleaving. */
  method WriteStep(a: array<RouterNetwork>, w: Write, b: array<RouterNetwork>,
                   ghost va: seq<NetworkValue>, ghost wa: seq<Write>, ghost spaceA: set<object>,
                   ghost vb: seq<NetworkValue>, ghost wb: seq<Write>, ghost spaceB: set<object>)
    returns (ghost grown: set<object>)
    requires Apart(a, spaceA, b, spaceB)
    modifies a, spaceA
    ensures spaceA <= grown && fresh(grown - spaceA) && Apart(a, grown, b, spaceB)
    ensures old(HoldsOwn(a[..], va, wa, spaceA)) ==> HoldsOwn(a[..], va, wa + [w], grown)
    ensures old(HoldsOwn(b[..], vb, wb, spaceB)) ==> HoldsOwn(b[..], vb, wb, spaceB)
    ensures b[..] == old(b[..])
  {
    AllAfterLast(va, wa, w);
    ghost var others := b[..];
    grown := WriteList(a, w, AllAfter(va, wa), spaceA);
    assert b[..] == others;
    if SharesNothing(wa + [w]) {
      assert forall x :: x in wa ==> x in wa + [w];
      assert w in wa + [w];
    }
  }

  lemma KindsInFootprint(n: RouterNetwork, p: object)
    requires p in n.Footprint()
    ensures n.dhcp != null
    ensures p is NetworkDhcp ==> p == n.dhcp
    ensures p is DhcpDnsConfig ==> p == n.dhcp.dns
    ensures p is DhcpOptions ==> p == n.dhcp.options
    ensures !(p is array<RouterNetwork>)
  {}

  /** The objects a slice reaches are closed, and the slice is not among them. */
  lemma ObjectsClosed(list: array<RouterNetwork>)
    ensures Closed(Objects(list[..])) && Reaches(list[..], Objects(list[..])) && list !in Objects(list[..])
  {
    var networks := list[..];
    var space := Objects(networks);
    forall p | p in space
      ensures !(p is array<RouterNetwork>)
      ensures p is NetworkDhcp ==> Pointers(p as NetworkDhcp) <= space
      ensures p is DhcpDnsConfig ==> (p as DhcpDnsConfig).Owned() <= space
      ensures p is DhcpOptions ==> (p as DhcpOptions).Owned() <= space
    {
      var i :| 0 <= i < |networks| && p in networks[i].Footprint();
      KindsInFootprint(networks[i], p);
      assert networks[i].Footprint() <= space;
    }
    forall i | 0 <= i < |networks|
      ensures Refs(networks[i].dhcp) <= space
    {
      assert networks[i].Footprint() <= space;
    }
  }

  lemma TreesAreGrove(networks: seq<RouterNetwork>, values: seq<NetworkValue>, region: set<object>)
    requires Trees(networks, values, region)
    ensures Grove(networks, values, Objects(networks)) && Objects(networks) <= region
  {
    TreesHold(networks, values, region);
    forall i | 0 <= i < |networks|
      ensures networks[i].Tree() && networks[i].Footprint() <= Objects(networks)
    {
      EachIsTree(networks, values, region, i);
    }
    forall i, j | 0 <= i < j < |networks|
      ensures networks[i].Footprint() !! networks[j].Footprint()
    {
      TreesShareNothing(networks, values, region, i, j);
    }
    MakeGrove(networks, values, Objects(networks));
  }

  /** A copy is made apart from whatever the original reaches, with its values, sharing nothing. */
  method CopyApart(original: array<RouterNetwork>, ghost reached: set<object>)
    returns (copy: array<RouterNetwork>, ghost space: set<object>)
    requires Closed(reached) && Reaches(original[..], reached) && original !in reached
    ensures fresh(copy) && fresh(space) && Apart(original, reached, copy, space)
    ensures Grove(copy[..], old(Values(original[..])), space)
  {
    ghost var values := Values(original[..]);
    ghost var region;
    copy, region := CopyNetworks(original);
    space := GroveSpace(copy, values, region);
  }

  lemma GroveSpace(copy: array<RouterNetwork>, values: seq<NetworkValue>, region: set<object>)
    returns (space: set<object>)
    requires Trees(copy[..], values, region)
    ensures space <= region && Closed(space) && Reaches(copy[..], space) && copy !in space
    ensures Grove(copy[..], values, space)
  {
    space := Objects(copy[..]);
    TreesAreGrove(copy[..], values, region);
    ObjectsClosed(copy);
  }

  // ---- the deep copy under any writes ----

  /** Every slice reaches a closed set of objects and holds its values there, so what the methods
      below require can always be had. */
  lemma EverySlice(list: array<RouterNetwork>)
    ensures var space := Objects(list[..]);
            Closed(space) && Reaches(list[..], space) && list !in space && Hold(list[..], Values(list[..]), space)
  {
    ObjectsClosed(list);
    HoldInside(list[..], Objects(list[..]));
  }

  /** Writes through a copy, of any kind and number, change nothing the original holds: the method
      modifies no object that was there before. The copy then holds the value of the original with
      those writes done to it. */
  method WriteThroughCopy(original: array<RouterNetwork>, writes: seq<Write>,
                          ghost values: seq<NetworkValue>, ghost reached: set<object>)
    returns (copy: array<RouterNetwork>)
    requires Closed(reached) && Reaches(original[..], reached) && original !in reached
    requires Hold(original[..], values, reached)
    ensures original[..] == old(original[..]) && Hold(original[..], values, reached)
    ensures SharesNothing(writes) ==> Values(copy[..]) == AllAfter(values, writes)
  {
    HoldValues(original[..], values, reached);
    ghost var space;
    copy, space := CopyApart(original, reached);
    space := WriteSide(copy, writes, original, values, space, reached);
  }

  /** The same for every slice. */
  method CopyAndWrite(original: array<RouterNetwork>, writes: seq<Write>) returns (copy: array<RouterNetwork>)
    ensures original[..] == old(original[..]) && Values(original[..]) == old(Values(original[..]))
    ensures SharesNothing(writes) ==> Values(copy[..]) == AllAfter(old(Values(original[..])), writes)
  {
    ghost var reached, values := Objects(original[..]), Values(original[..]);
    EverySlice(original);
    copy := WriteThroughCopy(original, writes, values, reached);
    HoldValues(original[..], values, reached);
  }

  lemma HoldValues(networks: seq<RouterNetwork>, values: seq<NetworkValue>, space: set<object>)
    requires Hold(networks, values, space)
    ensures Values(networks) == values
  {}

  /** Writes through the original, of any kind and number and whatever it shares, change nothing the
      copy holds. */
  method WriteThroughOriginal(original: array<RouterNetwork>, writes: seq<Write>) returns (copy: array<RouterNetwork>)
    modifies original, Objects(original[..])
    ensures fresh(copy) && Values(copy[..]) == old(Values(original[..]))
  {
    ghost var reached, values := Objects(original[..]), Values(original[..]);
    ObjectsClosed(original);
    ghost var space;
    copy, space := CopyApart(original, reached);
    reached := WriteSide(original, writes, copy, values, reached, space);
  }

  /** Writes through both, interleaved in any way: each slice holds what its own writes make of its
      value, as long as it shares nothing. */
  method Interleave(original: array<RouterNetwork>, copy: array<RouterNetwork>, steps: seq<Step>,
                    ghost values: seq<NetworkValue>, ghost spaceO: set<object>, ghost spaceC: set<object>)
    returns (ghost grownO: set<object>, ghost grownC: set<object>)
    requires Apart(original, spaceO, copy, spaceC)
    modifies original, copy, spaceO, spaceC
    ensures Apart(original, grownO, copy, grownC)
    ensures old(Grove(original[..], values, spaceO)) ==> HoldsOwn(original[..], values, Side(steps, false), grownO)
    ensures old(Grove(copy[..], values, spaceC)) ==> HoldsOwn(copy[..], values, Side(steps, true), grownC)
  {
    grownO, grownC := spaceO, spaceC;
    for i := 0 to |steps|
      invariant fresh(grownO - spaceO) && fresh(grownC - spaceC) && Apart(original, grownO, copy, grownC)
      invariant old(Grove(original[..], values, spaceO)) ==>
                  HoldsOwn(original[..], values, Side(steps[..i], false), grownO)
      invariant old(Grove(copy[..], values, spaceC)) ==>
                  HoldsOwn(copy[..], values, Side(steps[..i], true), grownC)
    {
      ghost var mine, theirs := Side(steps[..i], true), Side(steps[..i], false);
      SideNext(steps, i);
      if steps[i].onCopy {
        grownC := WriteStep(copy, steps[i].write, original, values, mine, grownC, values, theirs, grownO);
      } else {
        grownO := WriteStep(original, steps[i].write, copy, values, theirs, grownO, values, mine, grownC);
      }
    }
    assert steps[..|steps|] == steps;
  }

  lemma SideNext(steps: seq<Step>, i: nat)
    requires i < |steps|
    ensures Side(steps[..i + 1], steps[i].onCopy) == Side(steps[..i], steps[i].onCopy) + [steps[i].write]
    ensures Side(steps[..i + 1], !steps[i].onCopy) == Side(steps[..i], !steps[i].onCopy)
  {
    assert steps[..i + 1][..i] == steps[..i];
  }

  /** A copy is made, and then both are written to, in any interleaving. */
  method InterleaveCopy(original: array<RouterNetwork>, steps: seq<Step>,
                        ghost values: seq<NetworkValue>, ghost reached: set<object>)
    returns (copy: array<RouterNetwork>)
    requires Closed(reached) && Reaches(original[..], reached) && original !in reached
    requires Hold(original[..], values, reached)
    modifies original, reached
    ensures fresh(copy)
    ensures SharesNothing(Side(steps, true)) ==> Values(copy[..]) == AllAfter(values, Side(steps, true))
    ensures old(Grove(original[..], values, reached)) && SharesNothing(Side(steps, false)) ==>
              Values(original[..]) == AllAfter(values, Side(steps, false))
  {
    HoldValues(original[..], values, reached);
    ghost var space, grown;
    copy, space := CopyApart(original, reached);
    grown, space := Interleave(original, copy, steps, values, reached, space);
  }

  /** The same for every slice. */
  method CopyAndInterleave(original: array<RouterNetwork>, steps: seq<Step>) returns (copy: array<RouterNetwork>)
    modifies original, Objects(original[..])
    ensures fresh(copy)
    ensures SharesNothing(Side(steps, true)) ==>
              Values(copy[..]) == AllAfter(old(Values(original[..])), Side(steps, true))
    ensures && old(Grove(original[..], Values(original[..]), Objects(original[..])))
            && SharesNothing(Side(steps, false)) ==>
              Values(original[..]) == AllAfter(old(Values(original[..])), Side(steps, false))
  {
    ghost var reached, values := Objects(original[..]), Values(original[..]);
    EverySlice(original);
    copy := InterleaveCopy(original, steps, values, reached);
  }
}
