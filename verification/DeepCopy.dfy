/** The deep copies of a router's list of networks. Pointers are nullable references, a slice is
    a nullable array, and every object is updated in place. */
module DeepCopy {
  import opened Text

  /** What a pointer to a plain value points to. */
  class Cell<T> {
    var value: T

    constructor (value: T)
      ensures this.value == value
    {
      this.value := value;
    }
  }

  datatype Range = Range(start: string, end: string)

  datatype Reservation = Reservation(mac: string, ip: string, hostname: string)

  // ---- the tree a pointer structure stands for ----

  datatype DnsValue =
    DnsValue(nameservers: Option<seq<string>>, searchDomains: Option<seq<string>>, localDomain: string)

  datatype OptionsValue =
    OptionsValue(router: string, mtu: Option<int>, ntpServers: Option<seq<string>>, custom: Option<seq<string>>)

  /** The part of the DHCP settings that is not in the DNS settings and the options. */
  datatype FlatValue =
    FlatValue(enabled: Option<bool>, range: Option<Range>, leaseTime: string, reservations: Option<seq<Reservation>>)

  datatype DhcpValue =
    DhcpValue(enabled: Option<bool>, range: Option<Range>, leaseTime: string,
              reservations: Option<seq<Reservation>>, dns: Option<DnsValue>, options: Option<OptionsValue>)

  function Assembled(flat: FlatValue, dns: Option<DnsValue>, options: Option<OptionsValue>): DhcpValue {
    DhcpValue(flat.enabled, flat.range, flat.leaseTime, flat.reservations, dns, options)
  }

  datatype NetworkValue =
    NetworkValue(name: string, namespace: string, address: string, dhcp: Option<DhcpValue>)

  ghost function Elements<T>(slice: array?<T>): Option<seq<T>>
    reads slice
  {
    if slice == null then None else Some(slice[..])
  }

  ghost function Pointee<T>(pointer: Cell?<T>): Option<T>
    reads pointer
  {
    if pointer == null then None else Some(pointer.value)
  }

  ghost function Refs(o: object?): set<object> {
    if o == null then {} else {o}
  }

  /** A slice made with the length of another and filled by the built-in copy. */
  method CopySlice<T>(source: array?<T>) returns (copy: array?<T>)
    ensures copy == null <==> source == null
    ensures fresh(Refs(copy)) && Elements(copy) == Elements(source)
  {
    if source == null {
      return null;
    }
    copy := new T[source.Length](i requires 0 <= i < source.Length reads source => source[i]);
    assert copy[..] == source[..];
  }

  method CopyCell<T>(source: Cell?<T>) returns (copy: Cell?<T>)
    ensures copy == null <==> source == null
    ensures fresh(Refs(copy)) && Pointee(copy) == Pointee(source)
  {
    if source == null {
      return null;
    }
    copy := new Cell(source.value);
  }

  class DhcpDnsConfig {
    var nameservers: array?<string>
    var searchDomains: array?<string>
    var localDomain: string

    ghost function Owned(): set<object>
      reads this
    {
      Refs(nameservers) + Refs(searchDomains)
    }

    ghost function Footprint(): set<object>
      reads this
    {
      {this} + Owned()
    }

    ghost function Value(): DnsValue
      reads this, nameservers, searchDomains
    {
      DnsValue(Elements(nameservers), Elements(searchDomains), localDomain)
    }

    /** No object is reached in two ways. */
    ghost predicate Tree()
      reads this
    {
      Refs(nameservers) !! Refs(searchDomains)
    }

    /** The zero value. */
    constructor ()
      ensures Value() == DnsValue(None, None, "")
    {
      nameservers, searchDomains, localDomain := null, null, "";
    }

    method DeepCopyInto(out: DhcpDnsConfig)
      requires out != this
      modifies out
      ensures out.Value() == old(Value())
      ensures out.Tree() && fresh(out.Owned())
    {
      out.nameservers, out.searchDomains, out.localDomain := nameservers, searchDomains, localDomain;
      out.nameservers := CopySlice(nameservers);
      out.searchDomains := CopySlice(searchDomains);
    }

    static method DeepCopy(source: DhcpDnsConfig?) returns (out: DhcpDnsConfig?)
      ensures out == null <==> source == null
      ensures out != null ==> out.Value() == source.Value() && out.Tree() && fresh(out.Footprint())
    {
      if source == null {
        return null;
      }
      out := new DhcpDnsConfig();
      source.DeepCopyInto(out);
    }
  }

  class DhcpOptions {
    var router: string
    var mtu: Cell?<int>
    var ntpServers: array?<string>
    var custom: array?<string>

    ghost function Owned(): set<object>
      reads this
    {
      Refs(mtu) + Refs(ntpServers) + Refs(custom)
    }

    ghost function Footprint(): set<object>
      reads this
    {
      {this} + Owned()
    }

    ghost function Value(): OptionsValue
      reads this, mtu, ntpServers, custom
    {
      OptionsValue(router, Pointee(mtu), Elements(ntpServers), Elements(custom))
    }

    ghost predicate Tree()
      reads this
    {
      Refs(ntpServers) !! Refs(custom)
    }

    constructor ()
      ensures Value() == OptionsValue("", None, None, None)
    {
      router, mtu, ntpServers, custom := "", null, null, null;
    }

    method DeepCopyInto(out: DhcpOptions)
      requires out != this
      modifies out
      ensures out.Value() == old(Value())
      ensures out.Tree() && fresh(out.Owned())
    {
      out.router, out.mtu, out.ntpServers, out.custom := router, mtu, ntpServers, custom;
      out.mtu := CopyCell(mtu);
      out.ntpServers := CopySlice(ntpServers);
      out.custom := CopySlice(custom);
    }

    static method DeepCopy(source: DhcpOptions?) returns (out: DhcpOptions?)
      ensures out == null <==> source == null
      ensures out != null ==> out.Value() == source.Value() && out.Tree() && fresh(out.Footprint())
    {
      if source == null {
        return null;
      }
      out := new DhcpOptions();
      source.DeepCopyInto(out);
    }
  }

  class NetworkDhcp {
    var enabled: Cell?<bool>
    var range: Cell?<Range>
    var leaseTime: string
    var reservations: array?<Reservation>
    var dns: DhcpDnsConfig?
    var options: DhcpOptions?

    ghost function DnsFootprint(): set<object>
      reads this, dns
    {
      if dns == null then {} else dns.Footprint()
    }

    ghost function OptionsFootprint(): set<object>
      reads this, options
    {
      if options == null then {} else options.Footprint()
    }

    ghost function FlatRefs(): set<object>
      reads this
    {
      Refs(enabled) + Refs(range) + Refs(reservations)
    }

    ghost function Owned(): set<object>
      reads this, dns, options
    {
      FlatRefs() + DnsFootprint() + OptionsFootprint()
    }

    ghost function Footprint(): set<object>
      reads this, dns, options
    {
      {this} + Owned()
    }

    ghost function Value(): DhcpValue
      reads Footprint()
    {
      DhcpValue(Pointee(enabled), Pointee(range), leaseTime, Elements(reservations),
                if dns == null then None else Some(dns.Value()),
                if options == null then None else Some(options.Value()))
    }

    ghost predicate Tree()
      reads this, dns, options
    {
      && (FlatRefs() !! DnsFootprint() !! OptionsFootprint()) && this !in Owned()
      && (dns != null ==> dns.Tree()) && (options != null ==> options.Tree())
    }

    constructor ()
      ensures Value() == DhcpValue(None, None, "", None, None, None)
    {
      enabled, range, leaseTime, reservations, dns, options := null, null, "", null, null, null;
    }

    ghost function Flat(): FlatValue
      reads this, enabled, range, reservations
    {
      FlatValue(Pointee(enabled), Pointee(range), leaseTime, Elements(reservations))
    }

    ghost function DnsOf(): Option<DnsValue>
      reads this, dns, DnsFootprint()
    {
      if dns == null then None else Some(dns.Value())
    }

    ghost function OptionsOf(): Option<OptionsValue>
      reads this, options, OptionsFootprint()
    {
      if options == null then None else Some(options.Value())
    }

    twostate lemma FlatKept()
      requires enabled == old(enabled) && range == old(range) && reservations == old(reservations)
      requires leaseTime == old(leaseTime) && forall o :: o in old(FlatRefs()) ==> unchanged(o)
      ensures FlatRefs() == old(FlatRefs()) && Flat() == old(Flat())
    {}

    twostate lemma DnsKept()
      requires dns == old(dns) && forall o :: o in old(DnsFootprint()) ==> unchanged(o)
      ensures DnsFootprint() == old(DnsFootprint()) && DnsOf() == old(DnsOf())
      ensures dns != null ==> dns.Tree() == old(dns.Tree())
    {
      if dns != null {
        assert dns in old(DnsFootprint());
      }
    }

    twostate lemma OptionsKept()
      requires options == old(options) && forall o :: o in old(OptionsFootprint()) ==> unchanged(o)
      ensures OptionsFootprint() == old(OptionsFootprint()) && OptionsOf() == old(OptionsOf())
      ensures options != null ==> options.Tree() == old(options.Tree())
    {
      if options != null {
        assert options in old(OptionsFootprint());
      }
    }

    lemma ValueOfParts()
      ensures Value() == Assembled(Flat(), DnsOf(), OptionsOf())
    {}

    lemma TreeOfParts()
      requires FlatRefs() !! DnsFootprint() !! OptionsFootprint() && this !in DnsFootprint() + OptionsFootprint()
      requires (dns != null ==> dns.Tree()) && (options != null ==> options.Tree())
      ensures Tree()
    {}

    /** The pointers and the slice to plain values. */
    method CopyFlatInto(out: NetworkDhcp)
      requires out != this
      modifies out`enabled, out`range, out`leaseTime, out`reservations
      ensures fresh(out.FlatRefs()) && out.Flat() == old(Flat())
      ensures DnsOf() == old(DnsOf()) && OptionsOf() == old(OptionsOf())
    {
      out.leaseTime := leaseTime;
      out.enabled := CopyCell(enabled);
      out.range := CopyCell(range);
      out.reservations := CopySlice(reservations);
      DnsKept();
      OptionsKept();
    }

    method CopyDnsInto(out: NetworkDhcp)
      requires out != this
      modifies out`dns
      ensures fresh(out.DnsFootprint()) && (out.dns != null ==> out.dns.Tree())
      ensures out.DnsOf() == old(DnsOf()) && OptionsOf() == old(OptionsOf())
      ensures out.Flat() == old(out.Flat()) && out.FlatRefs() == old(out.FlatRefs())
      ensures out.FlatRefs() !! out.DnsFootprint()
    {
      out.dns := DhcpDnsConfig.DeepCopy(dns);
      OptionsKept();
      out.FlatKept();
    }

    method CopyOptionsInto(out: NetworkDhcp)
      requires out != this
      modifies out`options
      ensures fresh(out.OptionsFootprint()) && (out.options != null ==> out.options.Tree())
      ensures out.OptionsOf() == old(OptionsOf())
      ensures out.Flat() == old(out.Flat()) && out.FlatRefs() == old(out.FlatRefs())
      ensures out.DnsOf() == old(out.DnsOf()) && out.DnsFootprint() == old(out.DnsFootprint())
      ensures out.dns != null ==> out.dns.Tree() == old(out.dns.Tree())
      ensures out.FlatRefs() !! out.OptionsFootprint() && out.DnsFootprint() !! out.OptionsFootprint()
    {
      out.options := DhcpOptions.DeepCopy(options);
      out.FlatKept();
      out.DnsKept();
    }

    /** The pointers to structures that hold pointers themselves. */
    method CopyNestedInto(out: NetworkDhcp)
      requires out != this
      modifies out`dns, out`options
      ensures fresh(out.DnsFootprint()) && fresh(out.OptionsFootprint())
      ensures out.FlatRefs() !! out.DnsFootprint() !! out.OptionsFootprint()
      ensures (out.dns != null ==> out.dns.Tree()) && (out.options != null ==> out.options.Tree())
      ensures out.DnsOf() == old(DnsOf()) && out.OptionsOf() == old(OptionsOf())
      ensures out.Flat() == old(out.Flat()) && out.FlatRefs() == old(out.FlatRefs())
    {
      CopyDnsInto(out);
      CopyOptionsInto(out);
    }

    method CopyPartsInto(out: NetworkDhcp)
      requires out != this
      modifies out
      ensures out.Flat() == old(Flat()) && out.DnsOf() == old(DnsOf()) && out.OptionsOf() == old(OptionsOf())
      ensures out.FlatRefs() !! out.DnsFootprint() !! out.OptionsFootprint()
      ensures fresh(out.FlatRefs()) && fresh(out.DnsFootprint()) && fresh(out.OptionsFootprint())
      ensures (out.dns != null ==> out.dns.Tree()) && (out.options != null ==> out.options.Tree())
    {
      CopyFlatInto(out);
      CopyNestedInto(out);
    }

    method DeepCopyInto(out: NetworkDhcp)
      requires out != this
      modifies out
      ensures out.Value() == old(Value())
      ensures out.Tree() && fresh(out.Owned())
    {
      ValueOfParts();
      CopyPartsInto(out);
      out.ValueOfParts();
      out.TreeOfParts();
    }
  }

  // ---- the slice of networks ----

  /** An element of the slice of networks; the element itself is stored in the slice. */
  datatype RouterNetwork = RouterNetwork(name: string, namespace: string, address: string, dhcp: NetworkDhcp?) {
    ghost function Footprint(): set<object>
      reads dhcp, if dhcp == null then {} else Refs(dhcp.dns) + Refs(dhcp.options)
    {
      if dhcp == null then {} else dhcp.Footprint()
    }

    ghost function Value(): NetworkValue
      reads Footprint()
    {
      NetworkValue(name, namespace, address, if dhcp == null then None else Some(dhcp.Value()))
    }

    ghost predicate Tree()
      reads Footprint()
    {
      dhcp != null ==> dhcp.Tree()
    }

    method DeepCopy() returns (out: RouterNetwork)
      ensures out.Value() == old(Value()) && out.Tree() && fresh(out.Footprint())
    {
      out := this;
      if dhcp != null {
        var copy := new NetworkDhcp();
        out := out.(dhcp := copy);
        dhcp.DeepCopyInto(copy);
      }
    }
  }

  /** Every object reachable from the networks. */
  ghost function Objects(networks: seq<RouterNetwork>): set<object>
    reads set i, o | 0 <= i < |networks| && o in networks[i].Footprint() :: o
  {
    set i, o | 0 <= i < |networks| && o in networks[i].Footprint() :: o
  }

  ghost function Values(networks: seq<RouterNetwork>): (values: seq<NetworkValue>)
    reads set i, o | 0 <= i < |networks| && o in networks[i].Footprint() :: o
    ensures |values| == |networks|
    ensures forall i :: 0 <= i < |networks| ==> values[i] == networks[i].Value()
  {
    seq(|networks|, i requires 0 <= i < |networks|
        reads if 0 <= i < |networks| then networks[i].Footprint() else {} => networks[i].Value())
  }

  ghost predicate Within(network: RouterNetwork, region: set<object>)
    reads region
  {
    && (network.dhcp != null ==>
          network.dhcp in region && Refs(network.dhcp.dns) + Refs(network.dhcp.options) <= region)
    && network.Footprint() <= region
  }

  /** The networks hold `values`, each on its own part of `region`, where no object is reached in
      two ways. */
  ghost predicate Trees(networks: seq<RouterNetwork>, values: seq<NetworkValue>, region: set<object>)
    reads region
  {
    |networks| == |values| &&
    (networks == [] ||
     var last := |networks| - 1;
     && Within(networks[last], region)
     && networks[last].Value() == values[last] && networks[last].Tree()
     && Trees(networks[..last], values[..last], region - networks[last].Footprint()))
  }

  lemma OneMoreTree(networks: seq<RouterNetwork>, values: seq<NetworkValue>, region: set<object>,
                    network: RouterNetwork)
    requires Trees(networks, values, region) && network.Tree() && network.Footprint() !! region
    ensures Trees(networks + [network], values + [network.Value()], region + network.Footprint())
  {
    assert (networks + [network])[..|networks|] == networks;
    assert (values + [network.Value()])[..|networks|] == values;
    assert region + network.Footprint() - network.Footprint() == region;
  }

  /** The networks hold `values` on `space`, shared or not. */
  ghost predicate Hold(networks: seq<RouterNetwork>, values: seq<NetworkValue>, space: set<object>)
    reads space
  {
    |networks| == |values| &&
    forall i :: 0 <= i < |networks| ==> Within(networks[i], space) && networks[i].Value() == values[i]
  }

  lemma HoldTheirValues(networks: seq<RouterNetwork>)
    ensures Hold(networks, Values(networks), Objects(networks))
  {
    forall i | 0 <= i < |networks|
      ensures Within(networks[i], Objects(networks))
    {
      assert forall o :: o in networks[i].Footprint() ==> o in Objects(networks);
    }
  }

  method StoreTree(copy: array<RouterNetwork>, i: nat, out: RouterNetwork, ghost v: NetworkValue,
                   ghost values: seq<NetworkValue>, ghost region: set<object>, ghost grown: set<object>)
    requires i < copy.Length && Trees(copy[..i], values, region)
    requires out.Tree() && out.Value() == v && out.Footprint() !! region
    requires grown == region + out.Footprint() && copy !in grown
    modifies copy
    ensures Trees(copy[..i + 1], values + [v], grown)
  {
    ghost var done := copy[..i];
    OneMoreTree(done, values, region, out);
    copy[i] := out;
    assert copy[..i + 1] == done + [out];
  }

  /** One iteration of the loop: element `i` is copied in place. */
  method CopyElement(
    networks: array<RouterNetwork>, i: nat, copy: array<RouterNetwork>,
    ghost values: seq<NetworkValue>, ghost region: set<object>)
    returns (ghost grown: set<object>)
    requires networks != copy && i < networks.Length == copy.Length && i < |values|
    requires networks[i].Value() == values[i]
    requires Trees(copy[..i], values[..i], region) && copy !in region
    modifies copy
    ensures Trees(copy[..i + 1], values[..i] + [values[i]], grown)
    ensures copy !in grown && fresh(grown - region)
  {
    var out := networks[i].DeepCopy();
    grown := region + out.Footprint();
    StoreTree(copy, i, out, values[i], values[..i], region, grown);
  }

  /** The same where the slice holds `values` on `space`, which the copy leaves alone. */
  method CopyNext(
    networks: array<RouterNetwork>, i: nat, copy: array<RouterNetwork>,
    ghost values: seq<NetworkValue>, ghost space: set<object>, ghost region: set<object>)
    returns (ghost grown: set<object>)
    requires networks != copy && i < networks.Length == copy.Length
    requires Hold(networks[..], values, space) && copy !in space
    requires Trees(copy[..i], values[..i], region) && copy !in region
    modifies copy
    ensures networks[..] == old(networks[..]) && Hold(networks[..], values, space)
    ensures Trees(copy[..i + 1], values[..i + 1], grown)
    ensures copy !in grown && fresh(grown - region)
  {
    ghost var originals := networks[..];
    assert networks[i] == originals[i] && originals[i].Value() == values[i];
    grown := CopyElement(networks, i, copy, values, region);
    assert values[..i + 1] == values[..i] + [values[i]];
    assert networks[..] == originals;
  }

  /** The loop over a slice that holds `values` on `space`. */
  method CopyAll(networks: array<RouterNetwork>, ghost values: seq<NetworkValue>, ghost space: set<object>)
    returns (copy: array<RouterNetwork>, ghost region: set<object>)
    requires Hold(networks[..], values, space)
    ensures fresh(copy) && fresh(region) && copy !in region && copy.Length == networks.Length
    ensures Trees(copy[..], values, region)
  {
    copy, region := new RouterNetwork[networks.Length], {};
    for i := 0 to networks.Length
      invariant fresh(region) && copy !in region
      invariant Hold(networks[..], values, space)
      invariant Trees(copy[..i], values[..i], region)
    {
      region := CopyNext(networks, i, copy, values, space, region);
    }
    assert copy[..] == copy[..networks.Length] && values == values[..networks.Length];
  }

  /** Copying a non-nil slice. Even where the originals share objects, the copies do not. */
  method CopyNetworks(networks: array<RouterNetwork>) returns (copy: array<RouterNetwork>, ghost region: set<object>)
    ensures fresh(copy) && fresh(region) && copy !in region && copy.Length == networks.Length
    ensures Trees(copy[..], old(Values(networks[..])), region)
  {
    HoldTheirValues(networks[..]);
    copy, region := CopyAll(networks, Values(networks[..]), Objects(networks[..]));
  }

  lemma {:induction false} TreesHold(networks: seq<RouterNetwork>, values: seq<NetworkValue>, region: set<object>)
    requires Trees(networks, values, region)
    ensures Hold(networks, values, region)
    decreases |networks|
  {
    if networks != [] {
      var last := |networks| - 1;
      TreesHold(networks[..last], values[..last], region - networks[last].Footprint());
      forall i | 0 <= i < last
        ensures Within(networks[i], region) && networks[i].Value() == values[i]
      {
        assert networks[..last][i] == networks[i] && values[..last][i] == values[i];
      }
    }
  }

  lemma {:induction false} EachIsTree(networks: seq<RouterNetwork>, values: seq<NetworkValue>,
                                      region: set<object>, i: nat)
    requires Trees(networks, values, region) && i < |networks|
    ensures networks[i].Tree() && networks[i].Footprint() <= region
    decreases |networks|
  {
    var last := |networks| - 1;
    if i < last {
      EachIsTree(networks[..last], values[..last], region - networks[last].Footprint(), i);
      assert networks[..last][i] == networks[i];
    }
  }

  /** In the copy no object is reached in two ways. */
  lemma {:induction false} TreesShareNothing(
    networks: seq<RouterNetwork>, values: seq<NetworkValue>, region: set<object>, i: nat, j: nat)
    requires Trees(networks, values, region) && i < j < |networks|
    ensures networks[i].Footprint() !! networks[j].Footprint()
    decreases |networks|
  {
    var last := |networks| - 1;
    var rest := region - networks[last].Footprint();
    if j < last {
      TreesShareNothing(networks[..last], values[..last], rest, i, j);
    } else {
      EachIsTree(networks[..last], values[..last], rest, i);
    }
  }

  // ---- what equal values mean, field by field ----

  /** Both nil, or of the same length with the same elements. */
  ghost predicate SameElements<T>(a: array?<T>, b: array?<T>)
    reads a, b
  {
    if a == null || b == null then a == null && b == null
    else a.Length == b.Length && forall i :: 0 <= i < a.Length ==> a[i] == b[i]
  }

  ghost predicate SamePointee<T>(a: Cell?<T>, b: Cell?<T>)
    reads a, b
  {
    if a == null || b == null then a == null && b == null else a.value == b.value
  }

  lemma ElementsMeaning<T>(a: array?<T>, b: array?<T>)
    ensures Elements(a) == Elements(b) <==> SameElements(a, b)
  {
    if a != null && b != null {
      assert a[..] == b[..] ==> forall i :: 0 <= i < a.Length ==> a[..][i] == b[..][i];
    }
  }

  lemma DnsValueMeaning(a: DhcpDnsConfig, b: DhcpDnsConfig)
    ensures a.Value() == b.Value() <==>
            && SameElements(a.nameservers, b.nameservers) && SameElements(a.searchDomains, b.searchDomains)
            && a.localDomain == b.localDomain
  {
    ElementsMeaning(a.nameservers, b.nameservers);
    ElementsMeaning(a.searchDomains, b.searchDomains);
  }

  lemma OptionsValueMeaning(a: DhcpOptions, b: DhcpOptions)
    ensures a.Value() == b.Value() <==>
            && a.router == b.router && SamePointee(a.mtu, b.mtu)
            && SameElements(a.ntpServers, b.ntpServers) && SameElements(a.custom, b.custom)
  {
    ElementsMeaning(a.ntpServers, b.ntpServers);
    ElementsMeaning(a.custom, b.custom);
  }

  lemma DhcpValueMeaning(a: NetworkDhcp, b: NetworkDhcp)
    ensures a.Value() == b.Value() <==>
            && SamePointee(a.enabled, b.enabled) && SamePointee(a.range, b.range) && a.leaseTime == b.leaseTime
            && SameElements(a.reservations, b.reservations)
            && (a.dns == null <==> b.dns == null) && (a.dns != null && b.dns != null ==> a.dns.Value() == b.dns.Value())
            && (a.options == null <==> b.options == null)
            && (a.options != null && b.options != null ==> a.options.Value() == b.options.Value())
  {
    ElementsMeaning(a.reservations, b.reservations);
  }

  lemma NetworkValueMeaning(a: RouterNetwork, b: RouterNetwork)
    ensures a.Value() == b.Value() <==>
            && a.name == b.name && a.namespace == b.namespace && a.address == b.address
            && (a.dhcp == null <==> b.dhcp == null)
            && (a.dhcp != null && b.dhcp != null ==> a.dhcp.Value() == b.dhcp.Value())
  {}
}
