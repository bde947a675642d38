/** `validateSubnetConfiguration`: the errors it collects, and what they mean for blocks of either version. */
module SubnetValidation {
  import opened Text
  import opened Bits
  import opened Cidr

  datatype ConfigError = InvalidFormat | TooFewAddresses(minIps: int)

  /** 2^k >= m, also for negative k, where the power lies strictly between 0 and 1. */
  predicate PowerAtLeast(k: int, m: int) {
    if k >= 0 then Pow2(k) >= m else m <= 0
  }

  /** The number after the only slash, if the text has one slash and a number there. */
  function LengthOf(parts: seq<string>): Option<int> {
    if |parts| == 2 then ParseInt(parts[1]) else None
  }

  /** The size check; a prefix length that is not a number passes it, as NaN does in the code. */
  predicate TooSmall(length: Option<int>, isV4: bool, minIps: int) {
    length.Some? && !PowerAtLeast((if isV4 then 32 else 128) - length.value, minIps)
  }

  /** Each error at most once, the format error first. */
  ghost predicate InOrder(errors: seq<ConfigError>, minIps: int) {
    && |errors| <= 2
    && (forall i :: 0 <= i < |errors| ==> errors[i] == InvalidFormat || errors[i] == TooFewAddresses(minIps))
    && (|errors| == 2 ==> errors[0] == InvalidFormat && errors[1] == TooFewAddresses(minIps))
  }

  /** The errors, given what the recognisers say and the length found. */
  method CollectErrors(isV4: bool, isV6: bool, length: Option<int>, minIps: int) returns (errors: seq<ConfigError>)
    ensures InvalidFormat in errors <==> !isV4 && !isV6
    ensures TooFewAddresses(minIps) in errors <==> TooSmall(length, isV4, minIps)
    ensures errors == [] <==> (isV4 || isV6) && !TooSmall(length, isV4, minIps)
    ensures InOrder(errors, minIps)
  {
    errors := [];
    if !(isV4 || isV6) {
      errors := errors + [InvalidFormat];
    }
    if length.Some? {
      var width := if isV4 then 32 else 128;
      if !PowerAtLeast(width - length.value, minIps) {
        errors := errors + [TooFewAddresses(minIps)];
      }
    }
  }

  /** The text denotes at least `n` IPv4 addresses. */
  ghost predicate HasAddresses(cidr: string, n: int) {
    var p := ParseCidr(cidr);
    p.Some? && p.value.bits <= 32 && |Addresses(p.value)| >= n
  }

  /** One slash, an address before it and a length from 0 to 128 after it; `isIpv6` recognises
      addresses. */
  predicate IsValidCidrV6(cidr: string, isIpv6: string -> bool) {
    var parts := Split(cidr, '/');
    && |parts| == 2
    && var length := ParseInt(parts[1]);
       length.Some? && 0 <= length.value <= 128 && isIpv6(parts[0])
  }

  /** A block of the length in the text has at least `n` of the 128-bit addresses. */
  predicate HasIpv6Addresses(cidr: string, n: int) {
    var length := LengthOf(Split(cidr, '/'));
    length.Some? && length.value <= 128 && Pow2(128 - length.value) >= n
  }

  ghost predicate Passes(cidr: string, minIps: int, isIpv6: string -> bool) {
    || (IsValidCidrV4(cidr) && HasAddresses(cidr, minIps))
    || (!IsValidCidrV4(cidr) && IsValidCidrV6(cidr, isIpv6) && HasIpv6Addresses(cidr, minIps))
  }

  /** There is one slash, the text after it begins with a number, and that number of bits leaves fewer
      than `minIps` of 2^width addresses; a longer prefix leaves less than one. */
  predicate LeavesTooFew(parts: seq<string>, width: nat, minIps: int) {
    && |parts| == 2
    && var length := ParseInt(parts[1]);
       && length.Some?
       && if length.value <= width then Pow2(width - length.value) < minIps else 0 < minIps
  }

  lemma SizeErrorMeaning(parts: seq<string>, isV4: bool, minIps: int)
    ensures TooSmall(LengthOf(parts), isV4, minIps) <==> LeavesTooFew(parts, if isV4 then 32 else 128, minIps)
  {}

  /** A block of either version passes exactly when it has at least `minIps` addresses, and nothing
      else passes. */
  method ValidateSubnetConfiguration(cidrBlock: string, minIps: int, isIpv6: string -> bool)
    returns (errors: seq<ConfigError>)
    ensures InvalidFormat in errors <==> !IsValidCidrV4(cidrBlock) && !IsValidCidrV6(cidrBlock, isIpv6)
    ensures TooFewAddresses(minIps) in errors <==>
            LeavesTooFew(Split(cidrBlock, '/'), if IsValidCidrV4(cidrBlock) then 32 else 128, minIps)
    ensures errors == [] <==> Passes(cidrBlock, minIps, isIpv6)
    ensures InOrder(errors, minIps)
  {
    PassMeaning(cidrBlock, minIps, isIpv6);
    SizeErrorMeaning(Split(cidrBlock, '/'), IsValidCidrV4(cidrBlock), minIps);
    errors := CollectErrors(IsValidCidrV4(cidrBlock), IsValidCidrV6(cidrBlock, isIpv6),
                            LengthOf(Split(cidrBlock, '/')), minIps);
  }

  lemma PassMeaning(cidr: string, minIps: int, isIpv6: string -> bool)
    ensures Passes(cidr, minIps, isIpv6) <==>
            && (IsValidCidrV4(cidr) || IsValidCidrV6(cidr, isIpv6))
            && !TooSmall(LengthOf(Split(cidr, '/')), IsValidCidrV4(cidr), minIps)
  {
    ValidSize(cidr, minIps);
    ValidIpv6Size(cidr, minIps, isIpv6);
  }

  lemma ValidIpv6Size(cidr: string, minIps: int, isIpv6: string -> bool)
    ensures IsValidCidrV6(cidr, isIpv6) ==>
              (TooSmall(LengthOf(Split(cidr, '/')), false, minIps) <==> !HasIpv6Addresses(cidr, minIps))
  {
    if IsValidCidrV6(cidr, isIpv6) {
      Ipv6Size(LengthOf(Split(cidr, '/')), minIps);
    }
  }

  lemma Ipv6Size(length: Option<int>, minIps: int)
    requires length.Some? && length.value <= 128
    ensures TooSmall(length, false, minIps) <==> Pow2(128 - length.value) < minIps
  {}

  lemma ValidSize(cidr: string, minIps: int)
    ensures IsValidCidrV4(cidr) ==>
              (TooSmall(LengthOf(Split(cidr, '/')), true, minIps) <==> !HasAddresses(cidr, minIps))
  {
    if IsValidCidrV4(cidr) {
      ValidIsCanonical(cidr);
      ParseValid(cidr);
      SizeMeaning(ParseCidr(cidr).value, minIps);
    }
  }

  /** The canonical text of an IPv4 block (every recognised text is one) passes the size check
      exactly when the block has at least `minIps` addresses. */
  lemma SizeMeaning(p: Prefix, minIps: int)
    requires ValidPrefix(p)
    ensures TooSmall(LengthOf(Split(PrintCidr(p), '/')), true, minIps) <==> |Addresses(p)| < minIps
  {
    PrintedLength(p);
    AddressCount(p);
    SizeOfLength(LengthOf(Split(PrintCidr(p), '/')), p.bits, minIps);
  }

  lemma PrintedLength(p: Prefix)
    ensures LengthOf(Split(PrintCidr(p), '/')) == Some(p.bits as int)
  {
    PartsOfCanonical(QuadOf(p));
    LengthFound(Split(PrintCidr(p), '/'), p.bits);
  }

  lemma SizeOfLength(length: Option<int>, bits: nat, minIps: int)
    requires length == Some(bits as int) && bits <= 32
    ensures TooSmall(length, true, minIps) <==> Pow2(32 - bits) < minIps
  {}

  lemma LengthFound(parts: seq<string>, bits: nat)
    requires |parts| == 2 && parts[1] == Numeral(bits)
    ensures LengthOf(parts) == Some(bits as int)
  {
    ParseIntNumeral(bits);
  }

  /** In a canonical block the text after the slash is the numeral of the prefix length. */
  lemma PartsOfCanonical(q: Quad)
    ensures |Split(Write(FieldsOf(q)), '/')| == 2 && Split(Write(FieldsOf(q)), '/')[1] == Numeral(q.bits)
  {
    var f := FieldsOf(q);
    NoSeparators(f.a);
    NoSeparators(f.b);
    NoSeparators(f.c);
    NoSeparators(f.d);
    NoSeparators(f.e);
    var address := f.a + "." + (f.b + "." + (f.c + "." + f.d));
    assert Write(f) == address + ['/'] + f.e;
    SplitOnce(address, f.e, '/');
  }

  lemma SplitOnce(a: string, b: string, sep: char)
    requires sep !in a && sep !in b
    ensures Split(a + [sep] + b, sep) == [a, b]
  {
    SplitConcat(a, b, sep);
  }

  /** The addresses of a prefix, as a set. */
  ghost function Addresses(p: Prefix): set<nat>
    requires p.bits <= 32
  {
    set x: nat | x < WORD && Contains(p, x)
  }

  ghost function Range(lo: nat, n: nat): set<nat> {
    if n == 0 then {} else Range(lo, n - 1) + {lo + n - 1}
  }

  lemma {:induction false} RangeSize(lo: nat, n: nat)
    ensures |Range(lo, n)| == n
    ensures forall x :: x in Range(lo, n) <==> lo <= x < lo + n
  {
    if n > 0 {
      RangeSize(lo, n - 1);
    }
  }

  /** A prefix of length b has 2^(32-b) addresses. */
  lemma AddressCount(p: Prefix)
    requires ValidPrefix(p)
    ensures |Addresses(p)| == Pow2(32 - p.bits)
  {
    var n := Pow2(32 - p.bits);
    var lo := Block(p.ip, n, p.bits);
    RangeSize(lo, n);
    assert Addresses(p) == Range(lo, n);
  }
}
