/** The VPC naming scheme of the operator and the parser the orphan collector
    uses to find the virtual machine behind a network interface (VNI). */
module VniNames {
  import opened Text

  const MAX_NAME_LENGTH := 63

  /** Every resource of a cluster carries this name prefix. */
  function Prefix(clusterId: string): string {
    "roks-" + clusterId + "-"
  }

  function VniName(clusterId: string, ns: string, vm: string): string {
    Prefix(clusterId) + ns + "-" + vm
  }

  /** Names too long for the VPC API keep 55 characters and end in a dash and
      seven characters of `hash`, a hexadecimal digest of the whole name. */
  function TruncateVpcName(name: string, hash: string): string
    requires |hash| >= 7
  {
    if |name| <= MAX_NAME_LENGTH then name else name[..55] + "-" + hash[..7]
  }

  /** A VM with several networks has a VNI for each, whose name ends in that of the network. */
  function FullName(clusterId: string, ns: string, vm: string, network: Option<string>): string {
    VniName(clusterId, ns, vm) + if network.Some? then "-" + network.value else ""
  }

  /** The name the webhook gives a VNI. */
  function WebhookName(clusterId: string, ns: string, vm: string, network: Option<string>, hash: string): string
    requires |hash| >= 7
  {
    TruncateVpcName(FullName(clusterId, ns, vm, network), hash)
  }

  /** Names of up to 63 characters stay as they are; of others the first 55 characters are kept, and
      a dash and seven characters of the digest make 63. */
  lemma Truncated(name: string, hash: string)
    requires |hash| >= 7
    ensures TruncateVpcName(name, hash) == name <==> |name| <= 63
    ensures |name| > 63 ==>
              && |TruncateVpcName(name, hash)| == 63
              && TruncateVpcName(name, hash)[..55] == name[..55]
              && TruncateVpcName(name, hash)[55..] == "-" + hash[..7]
  {
    if |name| > 63 {
      assert |TruncateVpcName(name, hash)| == 63;
    }
  }

  /** Truncation keeps the cluster's prefix when it has at most 55 characters. */
  lemma PrefixKept(clusterId: string, rest: string, hash: string)
    requires |hash| >= 7 && (|Prefix(clusterId)| <= 55 || |Prefix(clusterId) + rest| <= MAX_NAME_LENGTH)
    ensures HasPrefix(TruncateVpcName(Prefix(clusterId) + rest, hash), Prefix(clusterId))
  {
    var full := Prefix(clusterId) + rest;
    if |full| > MAX_NAME_LENGTH {
      assert full[..55][..|Prefix(clusterId)|] == Prefix(clusterId);
    }
  }

  function ParseVniName(vniName: string, clusterId: string): (string, string) {
    var prefix := Prefix(clusterId);
    if |vniName| <= |prefix| || !HasPrefix(vniName, prefix) then ("", "")
    else
      var remainder := vniName[|prefix|..];
      var dash := IndexOf(remainder, '-');
      if dash <= 0 || dash >= |remainder| - 1 then ("", "")
      else (remainder[..dash], remainder[dash + 1..])
  }

  /** The sweep goes on with a name only when both parts are non-empty. */
  predicate InScope(name: string, clusterId: string) {
    var (ns, vm) := ParseVniName(name, clusterId);
    ns != "" && vm != ""
  }

  lemma PrintedParses(clusterId: string, ns: string, vm: string)
    requires ns != "" && vm != "" && '-' !in ns
    ensures ParseVniName(VniName(clusterId, ns, vm), clusterId) == (ns, vm)
  {
    var remainder := VniName(clusterId, ns, vm)[|Prefix(clusterId)|..];
    assert remainder == ns + ['-'] + vm;
    CutUnique(remainder, '-', ns, vm);
    assert IndexOf(remainder, '-') == |ns|;
  }

  lemma ParsedPrints(name: string, clusterId: string)
    requires InScope(name, clusterId)
    ensures var (ns, vm) := ParseVniName(name, clusterId); name == VniName(clusterId, ns, vm) && '-' !in ns
  {
    var remainder := name[|Prefix(clusterId)|..];
    var dash := IndexOf(remainder, '-');
    assert remainder == remainder[..dash] + "-" + remainder[dash + 1..];
  }

  /** An answer with two non-empty parts is given for a name exactly when the
      naming scheme prints that name from a dash-free namespace and the virtual machine. */
  lemma ParseExact(name: string, clusterId: string, ns: string, vm: string)
    requires ns != "" && vm != ""
    ensures ParseVniName(name, clusterId) == (ns, vm) <==>
            name == "roks-" + clusterId + "-" + ns + "-" + vm && '-' !in ns
  {
    assert VniName(clusterId, ns, vm) == "roks-" + clusterId + "-" + ns + "-" + vm;
    if '-' !in ns {
      PrintedParses(clusterId, ns, vm);
    }
    if ParseVniName(name, clusterId) == (ns, vm) {
      ParsedPrints(name, clusterId);
    }
  }

  /** No answer is half empty, and a name in scope carries the cluster's prefix. */
  lemma ScopeMeaning(name: string, clusterId: string)
    ensures InScope(name, clusterId) ==> HasPrefix(name, Prefix(clusterId))
    ensures !InScope(name, clusterId) ==> ParseVniName(name, clusterId) == ("", "")
  {}

  /** The parser recovers the virtual machine from the name the webhook gave a VNI exactly when the
      namespace has no dash and the name is the untruncated one for a single network, or happens to
      agree with it: a name for several networks that is cut to 63 characters, the last eight of
      which, a dash and the digest, are also the last eight of the name for a single network. */
  lemma NameRecovered(clusterId: string, ns: string, vm: string, network: Option<string>, hash: string)
    requires ns != "" && vm != "" && |hash| >= 7
    ensures var single := VniName(clusterId, ns, vm);
            ParseVniName(WebhookName(clusterId, ns, vm, network, hash), clusterId) == (ns, vm) <==>
            && '-' !in ns
            && (if network.None? then |single| <= 63
                else |single| == 63 && single[55..] == "-" + hash[..7])
  {
    var single := VniName(clusterId, ns, vm);
    var full := FullName(clusterId, ns, vm, network);
    var name := WebhookName(clusterId, ns, vm, network, hash);
    ParseExact(name, clusterId, ns, vm);
    if network.Some? {
      assert full == single + "-" + network.value;
      if |full| > MAX_NAME_LENGTH && |single| == MAX_NAME_LENGTH {
        assert single == single[..55] + single[55..] && full[..55] == single[..55];
        assert name[55..] == "-" + hash[..7];
      }
    }
  }

  /** From an untruncated name for several networks the parser reads the network's name as the end
      of the machine's name, or misreads the namespace; it never recovers the machine. */
  lemma NetworkTakenForVm(clusterId: string, ns: string, vm: string, net: string, hash: string)
    requires ns != "" && vm != "" && |hash| >= 7
    requires |FullName(clusterId, ns, vm, Some(net))| <= MAX_NAME_LENGTH
    ensures var answer := ParseVniName(WebhookName(clusterId, ns, vm, Some(net), hash), clusterId);
            && answer != (ns, vm)
            && (answer == (ns, vm + "-" + net) <==> '-' !in ns)
  {
    var name := WebhookName(clusterId, ns, vm, Some(net), hash);
    NameRecovered(clusterId, ns, vm, Some(net), hash);
    assert name == VniName(clusterId, ns, vm + "-" + net);
    ParseExact(name, clusterId, ns, vm + "-" + net);
  }

  /** Two clusters share a resource name exactly when they are the same cluster
      or one id extends the other past a dash. */
  lemma ScopesOverlap(c1: string, c2: string)
    ensures (exists name :: HasPrefix(name, Prefix(c1)) && HasPrefix(name, Prefix(c2))) <==>
            c1 + "-" <= c2 + "-" || c2 + "-" <= c1 + "-"
  {
    var d1, d2 := c1 + "-", c2 + "-";
    assert Prefix(c1) == "roks-" + d1 && Prefix(c2) == "roks-" + d2;
    if d1 <= d2 {
      assert HasPrefix(Prefix(c2), Prefix(c1)) && HasPrefix(Prefix(c2), Prefix(c2));
    }
    if d2 <= d1 {
      assert HasPrefix(Prefix(c1), Prefix(c1)) && HasPrefix(Prefix(c1), Prefix(c2));
    }
    if exists name :: HasPrefix(name, Prefix(c1)) && HasPrefix(name, Prefix(c2)) {
      var name :| HasPrefix(name, Prefix(c1)) && HasPrefix(name, Prefix(c2));
      assert d1 == name[5..5 + |d1|] by { assert name[..|Prefix(c1)|] == "roks-" + d1; }
      assert d2 == name[5..5 + |d2|] by { assert name[..|Prefix(c2)|] == "roks-" + d2; }
      if |d1| <= |d2| {
        assert d1 == d2[..|d1|];
      } else {
        assert d2 == d1[..|d2|];
      }
    }
  }

  /** For VNIs the second part of a name must not start with a dash: two clusters share a name that
      both sweeps go on with exactly when they are the same cluster, or one id extends the other
      past a dash by something that does not begin with another dash. */
  lemma VniScopesOverlap(c1: string, c2: string)
    ensures (exists name :: InScope(name, c1) && InScope(name, c2)) <==>
            c1 == c2 || Extends(c1, c2) || Extends(c2, c1)
  {
    if c1 == c2 || Extends(c1, c2) {
      SharedName(c1, c2);
    } else if Extends(c2, c1) {
      SharedName(c2, c1);
    }
    if name :| InScope(name, c1) && InScope(name, c2) {
      ScopesOverlap(c1, c2);
      ScopeMeaning(name, c1);
      ScopeMeaning(name, c2);
      if c1 + "-" <= c2 + "-" {
        OverlapExtends(name, c1, c2);
      } else {
        OverlapExtends(name, c2, c1);
      }
    }
  }

  predicate Extends(c1: string, c2: string) {
    |c1| + 1 < |c2| && c1 + "-" <= c2 && c2[|c1| + 1] != '-'
  }

  lemma SharedName(c1: string, c2: string)
    requires c1 == c2 || Extends(c1, c2)
    ensures InScope(VniName(c2, "ns", "vm"), c1) && InScope(VniName(c2, "ns", "vm"), c2)
  {
    var name := VniName(c2, "ns", "vm");
    ParseExact(name, c2, "ns", "vm");
    if c1 != c2 {
      var remainder := c2[|c1| + 1..] + "-ns-vm";
      assert c2 == c1 + "-" + c2[|c1| + 1..];
      assert name == Prefix(c1) + remainder;
      assert remainder[0] == c2[|c1| + 1];
      assert remainder[|c2| - |c1| - 1] == '-';
    }
  }

  lemma OverlapExtends(name: string, c1: string, c2: string)
    requires c1 + "-" <= c2 + "-" && InScope(name, c1) && HasPrefix(name, Prefix(c2))
    ensures c1 == c2 || Extends(c1, c2)
  {
    assert c1 == (c2 + "-")[..|c1|];
    if |c1| == |c2| {
      assert c1 == c2;
    } else {
      assert c1 + "-" == c2[..|c1| + 1];
      var remainder := name[|Prefix(c1)|..];
      assert remainder[0] == name[|Prefix(c1)|] == Prefix(c2)[|Prefix(c1)|] == (c2 + "-")[|c1| + 1];
      assert remainder[0] != '-';
    }
  }

  /** Distinct dash-free cluster ids never compete for a resource. */
  lemma ScopesDisjoint(c1: string, c2: string, name: string)
    requires c1 != c2 && '-' !in c1 && '-' !in c2
    requires HasPrefix(name, Prefix(c1))
    ensures !HasPrefix(name, Prefix(c2))
  {
    ScopesOverlap(c1, c2);
    if c1 + "-" <= c2 + "-" {
      DashFreePrefix(c1, c2);
    } else if c2 + "-" <= c1 + "-" {
      DashFreePrefix(c2, c1);
    }
  }

  lemma DashFreePrefix(a: string, b: string)
    requires '-' !in b && a + "-" <= b + "-"
    ensures a == b
  {
    assert (b + "-")[|a|] == (a + "-")[|a|] == '-';
    assert forall i :: 0 <= i < |b| ==> (b + "-")[i] == b[i] && b[i] in b;
    assert a == (b + "-")[..|a|];
  }
}
