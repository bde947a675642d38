/** IPv4 CIDR text (RFC 4632, section 3.1) in the console: the lenient parser of the network
    wizard, its containment test, and the strict recogniser of the validators. */
module Cidr {
  import opened Text
  import opened Bits

  datatype Prefix = Prefix(ip: nat, bits: nat)

  ghost predicate ValidPrefix(p: Prefix) {
    p.ip < WORD && p.bits <= 32
  }

  // ---- the shape "a.b.c.d/e" ----

  datatype Fields = Fields(a: string, b: string, c: string, d: string, e: string)

  function Write(f: Fields): string {
    f.a + "." + (f.b + "." + (f.c + "." + (f.d + "/" + f.e)))
  }

  /** The text cut at its first three dots and the first slash after them. */
  function Read(s: string): Option<Fields> {
    match Cut(s, '.')
    case None => None
    case Some((a, s1)) =>
      match Cut(s1, '.')
      case None => None
      case Some((b, s2)) =>
        match Cut(s2, '.')
        case None => None
        case Some((c, s3)) =>
          match Cut(s3, '/')
          case None => None
          case Some((d, e)) => Some(Fields(a, b, c, d, e))
  }

  lemma ReadIsExact(s: string)
    ensures Read(s).Some? ==> s == Write(Read(s).value)
  {}

  lemma ReadWrite(f: Fields)
    requires '.' !in f.a && '.' !in f.b && '.' !in f.c && '/' !in f.d
    ensures Read(Write(f)) == Some(f)
  {
    var s3 := f.d + "/" + f.e;
    var s2 := f.c + "." + s3;
    var s1 := f.b + "." + s2;
    assert Write(f) == f.a + "." + s1;
    CutUnique(Write(f), '.', f.a, s1);
    CutUnique(s1, '.', f.b, s2);
    CutUnique(s2, '.', f.c, s3);
    CutUnique(s3, '/', f.d, f.e);
  }

  /** Between one and `n` digits. */
  predicate Digits(s: string, n: nat) {
    1 <= |s| <= n && AllDigits(s)
  }

  lemma NoSeparators(s: string)
    requires AllDigits(s)
    ensures '.' !in s && '/' !in s
  {}

  // ---- the lenient parser ----

  /** The regular expression of the parser. */
  predicate Lenient(f: Fields) {
    Digits(f.a, 3) && Digits(f.b, 3) && Digits(f.c, 3) && Digits(f.d, 3) && Digits(f.e, 2)
  }

  /** Four octets and a prefix length. */
  datatype Quad = Quad(o0: nat, o1: nat, o2: nat, o3: nat, bits: nat)

  predicate InRange(q: Quad) {
    q.o0 <= 255 && q.o1 <= 255 && q.o2 <= 255 && q.o3 <= 255 && q.bits <= 32
  }

  function QuadOfFields(f: Fields): Quad
    requires Lenient(f)
  {
    Quad(Decimal(f.a), Decimal(f.b), Decimal(f.c), Decimal(f.d), Decimal(f.e))
  }

  /** The numbers in the text, when it has the right shape and they are in range. */
  function ParseQuad(cidr: string): Option<Quad> {
    var f := Read(Trim(cidr, JsSpace));
    if f.None? || !Lenient(f.value) then None
    else
      var q := QuadOfFields(f.value);
      if InRange(q) then Some(q) else None
  }

  function Address(q: Quad): nat {
    ToUint32(JsOr(JsOr(JsOr(JsShl(q.o0, 24), JsShl(q.o1, 16)), JsShl(q.o2, 8)), q.o3))
  }

  function ParseCidr(cidr: string): Option<Prefix> {
    match ParseQuad(cidr)
    case None => None
    case Some(q) => Some(Prefix(Address(q), q.bits))
  }

  /** The shifted and or-ed octets are the digits of a number in base 256. */
  lemma AddressValue(q: Quad)
    requires InRange(q)
    ensures Address(q) == q.o0 * 0x100_0000 + q.o1 * 0x1_0000 + q.o2 * 0x100 + q.o3
  {
    var o0, o1, o2, o3 := q.o0, q.o1, q.o2, q.o3;
    Pow2Values();
    var x0 := o0 * 0x100_0000;
    var x1 := x0 + o1 * 0x1_0000;
    var x2 := x1 + o2 * 0x100;
    var w0 := JsShl(o0, 24);
    ShlValue(o0, 24);
    var w1 := JsOr(w0, JsShl(o1, 16));
    ShlValue(o1, 16);
    OrWords(w0, x0, JsShl(o1, 16), o1 * 0x1_0000, o0, 24);
    var w2 := JsOr(w1, JsShl(o2, 8));
    ShlValue(o2, 8);
    OrWords(w1, x1, JsShl(o2, 8), o2 * 0x100, o0 * 0x100 + o1, 16);
    WordItself(o3);
    OrWords(w2, x2, o3, o3, o0 * 0x1_0000 + o1 * 0x100 + o2, 8);
  }

  lemma ShlValue(o: nat, k: nat)
    requires o < WORD && k < 32 && o * Pow2(k) < WORD
    ensures ToUint32(JsShl(o, k)) == o * Pow2(k)
  {
    var shifted := o * Pow2(k);
    WordItself(o);
    WordItself(shifted);
    assert k % 32 == k;
    assert JsShl(o, k) == ToInt32(shifted);
    SignedUnsigned(shifted);
  }

  /** Or of two 32-bit numbers whose unsigned values are `x` (a multiple of 2^k) and `y` below 2^k. */
  lemma OrWords(a: int, x: nat, b: int, y: nat, q: nat, k: nat)
    requires ToUint32(a) == x && ToUint32(b) == y && x == q * Pow2(k) && y < Pow2(k) && x + y < WORD
    ensures ToUint32(JsOr(a, b)) == x + y
  {
    OrAdds(q, k, y);
    SignedUnsigned(x + y);
    WordItself(x + y);
  }

  lemma WordItself(x: nat)
    requires x < WORD
    ensures ToUint32(x) == x
  {}

  lemma ParseValid(cidr: string)
    ensures ParseCidr(cidr).Some? ==> ValidPrefix(ParseCidr(cidr).value)
  {
    var q := ParseQuad(cidr);
    assert q.Some? ==> InRange(q.value);
  }

  // ---- which texts parse, and to what ----

  /** `s` has at most `n` digits, at least one, and they denote `v`; leading zeros do not matter. */
  predicate Denotes(s: string, n: nat, v: nat) {
    1 <= |s| <= n && AllDigits(s) && Decimal(s) == v
  }

  /** Four texts of one to three digits that denote at most 255, and one of one or two digits that
      denotes at most 32. */
  predicate FieldsDenote(f: Fields, q: Quad) {
    && Denotes(f.a, 3, q.o0) && Denotes(f.b, 3, q.o1) && Denotes(f.c, 3, q.o2) && Denotes(f.d, 3, q.o3)
    && Denotes(f.e, 2, q.bits)
    && q.o0 <= 255 && q.o1 <= 255 && q.o2 <= 255 && q.o3 <= 255 && q.bits <= 32
  }

  /** Such fields, with three dots and a slash between them and space around, parse to the address in
      base 256 and the length. */
  lemma ParseReads(l: string, f: Fields, r: string, q: Quad)
    requires All(l, JsSpace) && All(r, JsSpace) && FieldsDenote(f, q)
    ensures ParseCidr(l + (f.a + "." + (f.b + "." + (f.c + "." + (f.d + "/" + f.e)))) + r)
            == Some(Prefix(q.o0 * 0x100_0000 + q.o1 * 0x1_0000 + q.o2 * 0x100 + q.o3, q.bits))
  {
    var cidr := l + (f.a + "." + (f.b + "." + (f.c + "." + (f.d + "/" + f.e)))) + r;
    FieldsAround(l, f, r, q);
    PrefixRead(cidr, q);
  }

  lemma PrefixRead(cidr: string, q: Quad)
    requires ParseQuad(cidr) == Some(q) && InRange(q)
    ensures ParseCidr(cidr) == Some(Prefix(q.o0 * 0x100_0000 + q.o1 * 0x1_0000 + q.o2 * 0x100 + q.o3, q.bits))
  {
    PrefixOfQuad(cidr, q);
    PrefixValue(q, ParseCidr(cidr).value);
  }

  lemma PrefixOfQuad(cidr: string, q: Quad)
    requires ParseQuad(cidr) == Some(q)
    ensures ParseCidr(cidr) == Some(Prefix(Address(q), q.bits))
  {}

  lemma PrefixValue(q: Quad, p: Prefix)
    requires InRange(q) && p == Prefix(Address(q), q.bits)
    ensures p == Prefix(q.o0 * 0x100_0000 + q.o1 * 0x1_0000 + q.o2 * 0x100 + q.o3, q.bits)
  {
    AddressValue(q);
  }

  lemma FieldsAround(l: string, f: Fields, r: string, q: Quad)
    requires All(l, JsSpace) && All(r, JsSpace) && FieldsDenote(f, q)
    ensures InRange(q)
    ensures ParseQuad(l + (f.a + "." + (f.b + "." + (f.c + "." + (f.d + "/" + f.e)))) + r) == Some(q)
  {
    assert Write(f) == f.a + "." + (f.b + "." + (f.c + "." + (f.d + "/" + f.e)));
    assert QuadOfFields(f) == q;
    ParseFields(f);
    AroundText(l, f, r);
  }

  lemma AroundText(l: string, f: Fields, r: string)
    requires All(l, JsSpace) && All(r, JsSpace) && Lenient(f)
    ensures Trim(l + Write(f) + r, JsSpace) == Write(f) == Trim(Write(f), JsSpace)
  {
    NotTrimmed(f);
    TrimPadding(l, Write(f), r, JsSpace);
  }

  /** Nothing else parses. */
  lemma ParseForm(cidr: string)
    returns (l: string, f: Fields, r: string, q: Quad)
    requires ParseCidr(cidr).Some?
    ensures cidr == l + (f.a + "." + (f.b + "." + (f.c + "." + (f.d + "/" + f.e)))) + r
    ensures All(l, JsSpace) && All(r, JsSpace) && FieldsDenote(f, q)
  {
    l, r := TrimSplits(cidr, JsSpace);
    var text := Trim(cidr, JsSpace);
    ReadIsExact(text);
    f := Read(text).value;
    q := QuadOfFields(f);
  }

  // ---- containment ----

  /** The addresses of a prefix: those that agree with it on the first `bits` bits. */
  ghost predicate Contains(p: Prefix, address: nat)
    requires p.bits <= 32
  {
    address < WORD && address / Pow2(32 - p.bits) == p.ip / Pow2(32 - p.bits)
  }

  ghost predicate Within(inner: Prefix, outer: Prefix)
    requires inner.bits <= 32 && outer.bits <= 32
  {
    forall address :: Contains(inner, address) ==> Contains(outer, address)
  }

  /** The code's test for one parsed prefix. */
  predicate Fits(inner: Prefix, outer: Prefix)
    requires outer.bits <= 32
  {
    inner.bits >= outer.bits
    && JsAnd(inner.ip, PrefixMask(outer.bits)) == JsAnd(outer.ip, PrefixMask(outer.bits))
  }

  lemma QuotientOfQuotient(x: nat, a: nat, b: nat)
    requires a > 0 && b > 0
    ensures a * b > 0 && x / (a * b) == (x / a) / b
  {
    var q, r, t := (x / a) / b, (x / a) % b, x % a;
    DivMod(x, a);
    DivMod(x / a, b);
    MulMono(r + 1, b, a);
    Distribute(q, b, r, a);
    MulAtLeast(a, b);
    DivModUnique(x, a * b, q, r * a + t);
  }

  lemma DivMod(x: nat, d: nat)
    requires d > 0
    ensures x == (x / d) * d + x % d && 0 <= x % d < d
  {}

  lemma Distribute(q: nat, b: nat, r: nat, a: nat)
    ensures (q * b + r) * a == q * (a * b) + r * a
    ensures (r + 1) * a == r * a + a && b * a == a * b
    ensures r * a >= 0
  {}

  lemma MulMono(r: nat, b: nat, a: nat)
    requires r <= b
    ensures r * a <= b * a
  {
    assert b * a == r * a + (b - r) * a;
  }

  /** The test is containment: the parsed CIDR passes exactly when all its addresses belong to
      the address prefix. */
  lemma FitsIsWithin(inner: Prefix, outer: Prefix)
    requires ValidPrefix(inner) && ValidPrefix(outer)
    ensures Fits(inner, outer) <==> Within(inner, outer)
  {
    MaskedEqual(inner.ip, outer.ip, outer.bits);
    if Fits(inner, outer) {
      forall address | Contains(inner, address)
        ensures Contains(outer, address)
      {
        var d := inner.bits - outer.bits;
        Pow2Add(32 - inner.bits, d);
        QuotientOfQuotient(address, Pow2(32 - inner.bits), Pow2(d));
        QuotientOfQuotient(inner.ip, Pow2(32 - inner.bits), Pow2(d));
      }
    }
    if Within(inner, outer) {
      assert Contains(inner, inner.ip);
      assert Contains(outer, inner.ip);
      if inner.bits < outer.bits {
        SpreadsOut(inner, outer);
      }
    }
  }

  /** A shorter prefix has two addresses that a longer one tells apart. */
  lemma SpreadsOut(inner: Prefix, outer: Prefix)
    requires ValidPrefix(inner) && ValidPrefix(outer) && inner.bits < outer.bits
    ensures !Within(inner, outer)
  {
    var m := Pow2(32 - outer.bits);
    Pow2Mono(33 - outer.bits, 32 - inner.bits);
    assert Pow2(33 - outer.bits) == 2 * m;
    var lo, hi := BlockEnds(inner);
    SameQuotientClose(lo, hi, m);
    assert !(Contains(outer, lo) && Contains(outer, hi));
  }

  lemma InBlock(x: nat, n: nat, q: nat)
    requires n > 0
    ensures x / n == q <==> q * n <= x < q * n + n
  {
    assert x == (x / n) * n + x % n;
    if q * n <= x < q * n + n {
      DivModUnique(x, n, q, x - q * n);
    }
  }

  /** The addresses that agree with `ip` on its first `bits` bits are an interval of length n. */
  lemma Block(ip: nat, n: nat, bits: nat)
    returns (lo: nat)
    requires ip < WORD && bits <= 32 && n == Pow2(32 - bits)
    ensures lo + n <= WORD
    ensures forall x: nat :: x / n == ip / n <==> lo <= x < lo + n
  {
    BlockEnd(ip, n, bits);
    lo := BlockFrom(ip / n, n);
  }

  lemma BlockFrom(q: nat, n: nat)
    returns (lo: nat)
    requires n > 0
    ensures lo == q * n && forall x: nat :: x / n == q <==> lo <= x < lo + n
  {
    lo := q * n;
    forall x: nat
      ensures x / n == q <==> lo <= x < lo + n
    {
      InBlock(x, n, q);
    }
  }

  /** The first and the last address of a prefix. */
  lemma BlockEnds(p: Prefix)
    returns (lo: nat, hi: nat)
    requires ValidPrefix(p)
    ensures Contains(p, lo) && Contains(p, hi) && hi - lo == Pow2(32 - p.bits) - 1
  {
    var n := Pow2(32 - p.bits);
    lo := Block(p.ip, n, p.bits);
    hi := lo + n - 1;
    assert lo / n == p.ip / n && hi / n == p.ip / n;
  }

  lemma SameQuotientClose(x: nat, y: nat, m: nat)
    requires m > 0
    ensures x / m == y / m ==> y - x < m
  {
    DivMod(x, m);
    DivMod(y, m);
  }

  /** The block of `ip` ends inside the address space. */
  lemma BlockEnd(ip: nat, n: nat, bits: nat)
    requires ip < WORD && bits <= 32 && n == Pow2(32 - bits)
    ensures ip / n * n + (n - 1) < WORD
  {
    Pow2Values();
    Pow2Add(32 - bits, bits);
    BlockBelow(ip, n, Pow2(bits));
  }

  lemma BlockBelow(x: nat, n: nat, k: nat)
    requires n > 0 && x < n * k
    ensures x / n * n + (n - 1) < n * k
  {
    var q := x / n;
    assert x == q * n + x % n && n * k == k * n;
    if q >= k {
      MulMono(k, q, n);
    } else {
      MulMono(q + 1, k, n);
      assert (q + 1) * n == q * n + n;
    }
  }

  // ---- the wizard's check ----

  /** `text` parses to an address prefix that holds all addresses of `inner`. */
  ghost predicate Covers(inner: Prefix, text: string)
    requires inner.bits <= 32
  {
    match ParseCidr(text)
    case None => false
    case Some(outer) => outer.bits <= 32 && Within(inner, outer)
  }

  /** The texts that cover `inner`. */
  ghost predicate Covering(covering: set<string>, inner: Prefix, texts: seq<string>)
    requires inner.bits <= 32
  {
    forall p {:trigger Covers(inner, p)} :: p in texts ==> (p in covering <==> Covers(inner, p))
  }

  /** One turn of the loop over the address prefixes. */
  method FitsPrefix(inner: Prefix, text: string, ghost covering: set<string>, ghost texts: seq<string>)
    returns (fits: bool)
    requires ValidPrefix(inner) && text in texts && Covering(covering, inner, texts)
    ensures fits <==> text in covering
  {
    assert text in covering <==> Covers(inner, text);
    var outer := ParseCidr(text);
    if outer.None? { return false; }
    ParseValid(text);
    FitsIsWithin(inner, outer.value);
    if inner.bits < outer.value.bits { return false; }
    var mask := PrefixMask(outer.value.bits);
    return JsAnd(inner.ip, mask) == JsAnd(outer.value.ip, mask);
  }

  method FitsSome(inner: Prefix, prefixes: seq<string>, ghost covering: set<string>) returns (fits: bool)
    requires ValidPrefix(inner) && Covering(covering, inner, prefixes)
    ensures fits <==> exists p :: p in prefixes && p in covering
  {
    for i := 0 to |prefixes|
      invariant forall j :: 0 <= j < i ==> prefixes[j] !in covering
    {
      var found := FitsPrefix(inner, prefixes[i], covering, prefixes);
      if found { return true; }
    }
    return false;
  }

  /** True exactly when the CIDR parses and its addresses all belong to one parseable prefix. */
  method CidrFitsAnyPrefix(cidr: string, prefixes: seq<string>) returns (fits: bool)
    ensures ParseCidr(cidr).Some? ==> ValidPrefix(ParseCidr(cidr).value)
    ensures fits <==> ParseCidr(cidr).Some? && exists p :: p in prefixes && Covers(ParseCidr(cidr).value, p)
  {
    ParseValid(cidr);
    var inner := ParseCidr(cidr);
    if inner.None? { return false; }
    ghost var covering := set p | p in prefixes && Covers(inner.value, p);
    fits := FitsSome(inner.value, prefixes, covering);
    assert forall p :: p in prefixes ==> (p in covering <==> Covers(inner.value, p));
  }

  // ---- the strict recogniser ----

  /** One of: a digit; two digits without a leading zero; 1dd; 2[0-4]d; 25[0-5]. */
  predicate OctetToken(s: string) {
    AllDigits(s) && (
      || |s| == 1
      || (|s| == 2 && s[0] != '0')
      || (|s| == 3 && s[0] == '1')
      || (|s| == 3 && s[0] == '2' && s[1] <= '4')
      || (|s| == 3 && s[0] == '2' && s[1] == '5' && s[2] <= '5'))
  }

  /** One of: a digit; [1-2]d; 3[0-2]. */
  predicate LengthToken(s: string) {
    AllDigits(s) && (
      || |s| == 1
      || (|s| == 2 && '1' <= s[0] <= '2')
      || (|s| == 2 && s[0] == '3' && s[1] <= '2'))
  }

  predicate IsValidCidrV4(cidr: string) {
    var f := Read(cidr);
    && f.Some? && OctetToken(f.value.a) && OctetToken(f.value.b) && OctetToken(f.value.c)
    && OctetToken(f.value.d) && LengthToken(f.value.e)
  }

  lemma OneDigit(s: string)
    requires |s| == 1 && AllDigits(s)
    ensures Decimal(s) == DigitValue(s[0]) && s == Numeral(Decimal(s))
  {
    assert s[..0] == "" && s == [s[0]];
    var v := DigitValue(s[0]);
    assert ('0' as int + v) as char == s[0];
  }

  lemma NumeralStep(d: nat, v: nat)
    requires d >= 1 && v < 10
    ensures Numeral(10 * d + v) == Numeral(d) + [('0' as int + v) as char]
  {}

  /** Appending a digit to a canonical numeral other than 0 gives a canonical numeral. */
  lemma AppendDigit(s: string)
    requires |s| >= 2 && AllDigits(s) && s[..|s| - 1] == Numeral(Decimal(s[..|s| - 1])) && Decimal(s[..|s| - 1]) >= 1
    ensures Decimal(s) == 10 * Decimal(s[..|s| - 1]) + DigitValue(s[|s| - 1]) && s == Numeral(Decimal(s))
  {
    var v := DigitValue(s[|s| - 1]);
    assert ('0' as int + v) as char == s[|s| - 1];
    NumeralStep(Decimal(s[..|s| - 1]), v);
    assert s == s[..|s| - 1] + [s[|s| - 1]];
  }

  lemma TwoDigits(s: string)
    requires |s| == 2 && AllDigits(s) && s[0] != '0'
    ensures Decimal(s) == 10 * DigitValue(s[0]) + DigitValue(s[1]) && s == Numeral(Decimal(s))
  {
    assert s[0] in s;
    OneDigit(s[..1]);
    AppendDigit(s);
  }

  lemma ThreeDigits(s: string)
    requires |s| == 3 && AllDigits(s) && s[0] != '0'
    ensures Decimal(s) == 100 * DigitValue(s[0]) + 10 * DigitValue(s[1]) + DigitValue(s[2]) && s == Numeral(Decimal(s))
  {
    assert s[0] in s;
    TwoDigits(s[..2]);
    AppendDigit(s);
  }

  /** The octet tokens are the canonical numerals of 0..255. */
  lemma OctetTokens(s: string)
    ensures OctetToken(s) ==> Decimal(s) <= 255 && s == Numeral(Decimal(s))
  {
    if OctetToken(s) {
      if |s| == 1 { OneDigit(s); } else if |s| == 2 { TwoDigits(s); } else { ThreeDigits(s); }
    }
  }

  lemma NumeralIsOctetToken(n: nat)
    requires n <= 255
    ensures OctetToken(Numeral(n)) && |Numeral(n)| <= 3
  {
    if n >= 100 {
      assert Numeral(n / 10) == Numeral(n / 100) + [('0' as int + n / 10 % 10) as char];
      assert Numeral(n / 100) == [('0' as int + n / 100) as char];
    } else if n >= 10 {
      assert Numeral(n / 10) == [('0' as int + n / 10) as char];
    }
  }

  lemma LengthTokens(s: string)
    ensures LengthToken(s) ==> Decimal(s) <= 32 && s == Numeral(Decimal(s))
  {
    if LengthToken(s) {
      if |s| == 1 { OneDigit(s); } else { TwoDigits(s); }
    }
  }

  lemma NumeralIsLengthToken(n: nat)
    requires n <= 32
    ensures LengthToken(Numeral(n)) && |Numeral(n)| <= 2
  {
    if n >= 10 {
      assert Numeral(n / 10) == [('0' as int + n / 10) as char];
    }
  }

  function QuadOf(p: Prefix): Quad {
    Quad(p.ip / 0x100_0000, p.ip / 0x1_0000 % 0x100, p.ip / 0x100 % 0x100, p.ip % 0x100, p.bits)
  }

  function FieldsOf(q: Quad): Fields {
    Fields(Numeral(q.o0), Numeral(q.o1), Numeral(q.o2), Numeral(q.o3), Numeral(q.bits))
  }

  /** The canonical text of a prefix. */
  function PrintCidr(p: Prefix): string {
    Write(FieldsOf(QuadOf(p)))
  }

  lemma NotTrimmed(f: Fields)
    requires AllDigits(f.a) && f.a != "" && AllDigits(f.e) && f.e != ""
    ensures Trim(Write(f), JsSpace) == Write(f)
  {
    var rest := f.b + "." + (f.c + "." + (f.d + "/" + f.e));
    var s := Write(f);
    assert s == f.a + "." + rest;
    assert rest[|rest| - 1] == f.e[|f.e| - 1];
    assert f.a[0] in f.a && f.e[|f.e| - 1] in f.e;
    TrimNothing(s, JsSpace);
  }

  lemma ParseFields(f: Fields)
    requires Lenient(f) && InRange(QuadOfFields(f))
    ensures Read(Write(f)) == Some(f) && ParseQuad(Write(f)) == Some(QuadOfFields(f))
  {
    NoSeparators(f.a);
    NoSeparators(f.b);
    NoSeparators(f.c);
    NoSeparators(f.d);
    ReadWrite(f);
    NotTrimmed(f);
  }

  /** Canonical fields are tokens and parse back. */
  lemma CanonicalFields(q: Quad)
    requires InRange(q)
    ensures var f := FieldsOf(q);
            && OctetToken(f.a) && OctetToken(f.b) && OctetToken(f.c) && OctetToken(f.d) && LengthToken(f.e)
            && Lenient(f) && QuadOfFields(f) == q
  {
    NumeralIsOctetToken(q.o0);
    NumeralIsOctetToken(q.o1);
    NumeralIsOctetToken(q.o2);
    NumeralIsOctetToken(q.o3);
    NumeralIsLengthToken(q.bits);
    DecimalOfNumeral(q.o0);
    DecimalOfNumeral(q.o1);
    DecimalOfNumeral(q.o2);
    DecimalOfNumeral(q.o3);
    DecimalOfNumeral(q.bits);
  }

  /** Octets and 32-bit addresses correspond one to one. */
  lemma QuadsAndPrefixes(q: Quad, p: Prefix)
    requires InRange(q) && ValidPrefix(p)
    ensures ValidPrefix(Prefix(Address(q), q.bits)) && QuadOf(Prefix(Address(q), q.bits)) == q
    ensures InRange(QuadOf(p)) && Address(QuadOf(p)) == p.ip
  {
    AddressValue(q);
    Octets(q.o0, q.o1, q.o2, q.o3);
    Digits256(p.ip);
    AddressValue(QuadOf(p));
  }

  lemma Digits256(ip: nat)
    ensures ip == ip / 0x100_0000 * 0x100_0000 + ip / 0x1_0000 % 0x100 * 0x1_0000 + ip / 0x100 % 0x100 * 0x100 + ip % 0x100
    ensures ip < WORD ==> ip / 0x100_0000 <= 255
  {
    QuotientOfQuotient(ip, 0x100, 0x100);
    QuotientOfQuotient(ip, 0x1_0000, 0x100);
    DivMod(ip, 0x100);
    DivMod(ip / 0x100, 0x100);
    DivMod(ip / 0x1_0000, 0x100);
  }

  lemma Octets(o0: nat, o1: nat, o2: nat, o3: nat)
    requires o0 <= 255 && o1 <= 255 && o2 <= 255 && o3 <= 255
    ensures var ip := o0 * 0x100_0000 + o1 * 0x1_0000 + o2 * 0x100 + o3;
            && ip < WORD && ip / 0x100_0000 == o0 && ip / 0x1_0000 % 0x100 == o1
            && ip / 0x100 % 0x100 == o2 && ip % 0x100 == o3
  {
    var ip := o0 * 0x100_0000 + o1 * 0x1_0000 + o2 * 0x100 + o3;
    DivModUnique(ip, 0x100, o0 * 0x1_0000 + o1 * 0x100 + o2, o3);
    DivModUnique(ip, 0x1_0000, o0 * 0x100 + o1, o2 * 0x100 + o3);
    DivModUnique(ip, 0x100_0000, o0, o1 * 0x1_0000 + o2 * 0x100 + o3);
    DivModUnique(o0 * 0x1_0000 + o1 * 0x100 + o2, 0x100, o0 * 0x100 + o1, o2);
    DivModUnique(o0 * 0x100 + o1, 0x100, o0, o1);
  }

  /** Canonical texts are valid, and the parser undoes canonical printing. */
  lemma ParsePrinted(p: Prefix)
    requires ValidPrefix(p)
    ensures IsValidCidrV4(PrintCidr(p)) && ParseCidr(PrintCidr(p)) == Some(p)
  {
    var q := QuadOf(p);
    QuadsAndPrefixes(q, p);
    CanonicalFields(q);
    ParseFields(FieldsOf(q));
  }

  lemma CanonicalText(cidr: string)
    requires IsValidCidrV4(cidr)
    ensures ParseQuad(cidr).Some? && InRange(ParseQuad(cidr).value) && cidr == Write(FieldsOf(ParseQuad(cidr).value))
  {
    ReadIsExact(cidr);
    var f := Read(cidr).value;
    OctetTokens(f.a);
    OctetTokens(f.b);
    OctetTokens(f.c);
    OctetTokens(f.d);
    LengthTokens(f.e);
    ParseFields(f);
  }

  /** The validator accepts exactly the canonical texts, and the parser reads each of them back
      without loss: a text is valid if and only if it is the printing of what it parses to. */
  lemma ValidIsCanonical(cidr: string)
    ensures IsValidCidrV4(cidr) <==> exists p :: ValidPrefix(p) && cidr == PrintCidr(p)
    ensures IsValidCidrV4(cidr) <==> ParseCidr(cidr).Some? && cidr == PrintCidr(ParseCidr(cidr).value)
  {
    ParseValid(cidr);
    if IsValidCidrV4(cidr) {
      CanonicalText(cidr);
      var q := ParseQuad(cidr).value;
      QuadsAndPrefixes(q, Prefix(0, 0));
    }
    if p :| ValidPrefix(p) && cidr == PrintCidr(p) {
      ParsePrinted(p);
    }
  }
}
