/** Optional values and the string operations shared by the parsers of the
    operator (Go `strings`) and of the console plugin (JavaScript strings). */
module Text {

  datatype Option<+T> = None | Some(value: T)

  function Map<A, B>(f: A -> B, s: seq<A>): (r: seq<B>)
    ensures |r| == |s| && forall i :: 0 <= i < |s| ==> r[i] == f(s[i])
  {
    seq(|s|, i requires 0 <= i < |s| => f(s[i]))
  }

  lemma MapConcat<A, B>(f: A -> B, a: seq<A>, b: seq<A>)
    ensures Map(f, a + b) == Map(f, a) + Map(f, b)
  {}

  /** JavaScript `Array.prototype.filter`. */
  function Filter<T>(s: seq<T>, keep: T -> bool): seq<T> {
    if s == [] then []
    else
      var last := |s| - 1;
      Filter(s[..last], keep) + if keep(s[last]) then [s[last]] else []
  }

  lemma {:induction false} FilterMembers<T(!new)>(s: seq<T>, keep: T -> bool)
    ensures forall x :: x in Filter(s, keep) <==> x in s && keep(x)
  {
    if s != [] {
      var last := |s| - 1;
      FilterMembers(s[..last], keep);
      assert s == s[..last] + [s[last]];
    }
  }

  /** `r` has the elements of `s` at these positions, from left to right. */
  ghost predicate Picks<T(!new)>(r: seq<T>, s: seq<T>, at: seq<nat>) {
    && |r| == |at|
    && (forall k :: 0 <= k < |at| ==> at[k] < |s| && r[k] == s[at[k]])
    && forall k, l :: 0 <= k < l < |at| ==> at[k] < at[l]
  }

  /** The positions are those of the elements that are kept. */
  ghost predicate Keeps<T(!new)>(at: seq<nat>, s: seq<T>, keep: T -> bool) {
    forall i :: 0 <= i < |s| ==> (i in at <==> keep(s[i]))
  }

  lemma PickLast<T(!new)>(r: seq<T>, s: seq<T>, at: seq<nat>, keep: T -> bool)
    requires s != [] && Picks(r, s[..|s| - 1], at) && Keeps(at, s[..|s| - 1], keep)
    ensures var k := keep(s[|s| - 1]);
            && Picks(r + (if k then [s[|s| - 1]] else []), s, at + if k then [|s| - 1] else [])
            && Keeps(at + (if k then [|s| - 1] else []), s, keep)
  {
    var last := |s| - 1;
    assert last !in at;
    assert forall i :: 0 <= i < last ==> s[..last][i] == s[i];
  }

  /** Filtering keeps the order and each element once for each time it is there. */
  lemma {:induction false} FilterAt<T(!new)>(s: seq<T>, keep: T -> bool)
    returns (at: seq<nat>)
    ensures Picks(Filter(s, keep), s, at) && Keeps(at, s, keep)
  {
    at := [];
    if s != [] {
      var last := |s| - 1;
      at := FilterAt(s[..last], keep);
      PickLast(Filter(s[..last], keep), s, at, keep);
      at := at + if keep(s[last]) then [last] else [];
    }
  }

  predicate HasPrefix(s: string, prefix: string) {
    prefix <= s
  }

  /** Position of the first `c` in `s`, or -1. */
  function IndexOf(s: string, c: char): (i: int)
    ensures -1 <= i < |s|
    ensures i == -1 <==> c !in s
    ensures i >= 0 ==> s[i] == c && c !in s[..i]
  {
    if s == "" then -1
    else if s[0] == c then 0
    else
      var j := IndexOf(s[1..], c);
      if j == -1 then -1 else
        assert s[..j + 1] == [s[0]] + s[1..][..j];
        j + 1
  }

  /** The text before and after the first `c`. */
  function Cut(s: string, c: char): (r: Option<(string, string)>)
    ensures r.None? <==> c !in s
    ensures r.Some? ==> s == r.value.0 + [c] + r.value.1 && c !in r.value.0
  {
    var i := IndexOf(s, c);
    if i == -1 then None else Some((s[..i], s[i + 1..]))
  }

  lemma CutUnique(s: string, c: char, a: string, b: string)
    requires s == a + [c] + b && c !in a
    ensures Cut(s, c) == Some((a, b))
  {
    var i := IndexOf(s, c);
    assert s[|a|] == c && s[..|a|] == a;
    assert forall k :: 0 <= k < i ==> s[k] in s[..i];
    assert forall k :: 0 <= k < |a| ==> s[k] in a;
    assert s[..i] == a && s[i + 1..] == b;
  }

  /** Go `strings.Split` on a one-character separator. */
  function Split(s: string, sep: char): (parts: seq<string>)
    ensures |parts| >= 1
    ensures forall p :: p in parts ==> sep !in p
    decreases |s|
  {
    match Cut(s, sep)
    case None => [s]
    case Some((a, b)) => [a] + Split(b, sep)
  }

  function Join(parts: seq<string>, sep: char): string {
    if parts == [] then ""
    else if |parts| == 1 then parts[0]
    else parts[0] + [sep] + Join(parts[1..], sep)
  }

  lemma SplitFirst(s: string, sep: char, a: string, b: string)
    requires s == a + [sep] + b && sep !in a
    ensures Split(s, sep) == [a] + Split(b, sep)
  {
    CutUnique(s, sep, a, b);
  }

  lemma Reassociate(x: string, s: string, y: string, b: string)
    ensures x + s + y + s + b == x + s + (y + s + b)
  {}

  lemma {:induction false} SplitConcat(a: string, b: string, sep: char)
    ensures Split(a + [sep] + b, sep) == Split(a, sep) + Split(b, sep)
    decreases |a|
  {
    match Cut(a, sep)
    case None =>
      SplitFirst(a + [sep] + b, sep, a, b);
    case Some((x, y)) =>
      Reassociate(x, [sep], y, b);
      SplitFirst(a + [sep] + b, sep, x, y + [sep] + b);
      SplitConcat(y, b, sep);
      SplitFirst(a, sep, x, y);
      ConsConcat(x, Split(y, sep), Split(b, sep));
  }

  lemma ConsConcat(x: string, ys: seq<string>, bs: seq<string>)
    ensures [x] + (ys + bs) == [x] + ys + bs
  {}

  lemma SplitNothing(s: string, sep: char)
    requires sep !in s
    ensures Split(s, sep) == [s]
  {}

  /** Splitting undoes joining when no part holds the separator. */
  lemma {:induction false} SplitJoin(parts: seq<string>, sep: char)
    requires parts != []
    requires forall p :: p in parts ==> sep !in p
    ensures Split(Join(parts, sep), sep) == parts
  {
    var first, rest := parts[0], parts[1..];
    assert sep !in first && parts == [first] + rest;
    if rest == [] {
      SplitNothing(first, sep);
    } else {
      var tail := Join(rest, sep);
      SplitJoin(rest, sep);
      SplitFirst(first + [sep] + tail, sep, first, tail);
    }
  }

  function TrimLeft(s: string, isSpace: char -> bool): (t: string)
    ensures t == "" || !isSpace(t[0])
    ensures |t| <= |s| && t == s[|s| - |t|..]
  {
    if s != "" && isSpace(s[0]) then TrimLeft(s[1..], isSpace) else s
  }

  function TrimRight(s: string, isSpace: char -> bool): (t: string)
    ensures t == "" || !isSpace(t[|t| - 1])
    ensures t <= s
  {
    if s != "" && isSpace(s[|s| - 1]) then TrimRight(s[..|s| - 1], isSpace) else s
  }

  function Trim(s: string, isSpace: char -> bool): (t: string)
    ensures t != "" ==> !isSpace(t[0]) && !isSpace(t[|t| - 1])
    ensures forall c :: c in t ==> c in s
  {
    TrimRight(TrimLeft(s, isSpace), isSpace)
  }

  lemma TrimNothing(s: string, isSpace: char -> bool)
    requires s == "" || (!isSpace(s[0]) && !isSpace(s[|s| - 1]))
    ensures Trim(s, isSpace) == s
  {}

  predicate All(s: string, p: char -> bool) {
    forall c :: c in s ==> p(c)
  }

  lemma {:induction false} TrimLeftPadding(l: string, s: string, isSpace: char -> bool)
    requires All(l, isSpace) && (s == "" || !isSpace(s[0]))
    ensures TrimLeft(l + s, isSpace) == s
  {
    if l == "" {
      assert l + s == s;
    } else {
      assert l[0] in l && (l + s)[1..] == l[1..] + s;
      assert All(l[1..], isSpace);
      TrimLeftPadding(l[1..], s, isSpace);
    }
  }

  lemma {:induction false} TrimRightPadding(s: string, r: string, isSpace: char -> bool)
    requires All(r, isSpace) && (s == "" || !isSpace(s[|s| - 1]))
    ensures TrimRight(s + r, isSpace) == s
  {
    if r == "" {
      assert s + r == s;
    } else {
      var last := |r| - 1;
      assert r[last] in r && (s + r)[..|s + r| - 1] == s + r[..last];
      assert All(r[..last], isSpace);
      TrimRightPadding(s, r[..last], isSpace);
    }
  }

  lemma PrefixCut(t: string, u: string)
    requires u <= t
    ensures t == u + t[|u|..]
  {}

  lemma SuffixCut(s: string, t: string)
    requires |t| <= |s| && t == s[|s| - |t|..]
    ensures s == s[..|s| - |t|] + t
  {}

  lemma Concat3(a: string, b: string, c: string)
    ensures a + (b + c) == a + b + c
  {}

  /** Every text is its trimmed form with space around it. */
  lemma TrimSplits(s: string, isSpace: char -> bool)
    returns (l: string, r: string)
    ensures s == l + Trim(s, isSpace) + r && All(l, isSpace) && All(r, isSpace)
  {
    var t := TrimLeft(s, isSpace);
    var u := TrimRight(t, isSpace);
    l, r := s[..|s| - |t|], t[|u|..];
    assert All(l, isSpace) by { LeftIsSpace(s, isSpace); }
    assert All(r, isSpace) by { RightIsSpace(t, isSpace); }
    assert s == l + u + r by {
      SuffixCut(s, t);
      PrefixCut(t, u);
      Concat3(l, u, r);
    }
  }

  lemma {:induction false} LeftIsSpace(s: string, isSpace: char -> bool)
    ensures All(s[..|s| - |TrimLeft(s, isSpace)|], isSpace)
  {
    if s != "" && isSpace(s[0]) {
      LeftIsSpace(s[1..], isSpace);
      var n := |s| - |TrimLeft(s, isSpace)|;
      assert s[..n] == [s[0]] + s[1..][..n - 1];
    }
  }

  lemma {:induction false} RightIsSpace(s: string, isSpace: char -> bool)
    ensures All(s[|TrimRight(s, isSpace)|..], isSpace)
  {
    if s != "" && isSpace(s[|s| - 1]) {
      var rest := s[..|s| - 1];
      RightIsSpace(rest, isSpace);
      assert s[|TrimRight(rest, isSpace)|..] == rest[|TrimRight(rest, isSpace)|..] + [s[|s| - 1]];
    }
  }

  /** Trimming removes the space around a text, all of it and nothing else. */
  lemma TrimPadding(l: string, t: string, r: string, isSpace: char -> bool)
    requires All(l, isSpace) && All(r, isSpace) && t != "" && !isSpace(t[0]) && !isSpace(t[|t| - 1])
    ensures Trim(l + t + r, isSpace) == t
  {
    assert l + t + r == l + (t + r);
    TrimLeftPadding(l, t + r, isSpace);
    TrimRightPadding(t, r, isSpace);
  }

  /** JavaScript `String.prototype.trim` removes white space and line terminators. */
  predicate JsSpace(c: char) {
    '\t' <= c <= '\r' || c == ' ' || c == '\U{A0}' || c == '\U{1680}'
    || '\U{2000}' <= c <= '\U{200A}' || c == '\U{2028}' || c == '\U{2029}'
    || c == '\U{202F}' || c == '\U{205F}' || c == '\U{3000}' || c == '\U{FEFF}'
  }

  /** Go `unicode.IsSpace`. */
  predicate GoSpace(c: char) {
    '\t' <= c <= '\r' || c == ' ' || c == '\U{85}' || c == '\U{A0}' || c == '\U{1680}'
    || '\U{2000}' <= c <= '\U{200A}' || c == '\U{2028}' || c == '\U{2029}'
    || c == '\U{202F}' || c == '\U{205F}' || c == '\U{3000}'
  }

  // ---- decimal numerals ----

  predicate IsDigit(c: char) {
    '0' <= c <= '9'
  }

  predicate AllDigits(s: string) {
    forall c :: c in s ==> IsDigit(c)
  }

  function DigitValue(c: char): (v: nat)
    requires IsDigit(c)
    ensures v < 10
  {
    c as int - '0' as int
  }

  /** The number a digit string denotes; leading zeros are allowed. */
  function Decimal(s: string): nat
    requires AllDigits(s)
  {
    if s == "" then 0 else 10 * Decimal(s[..|s| - 1]) + DigitValue(s[|s| - 1])
  }

  /** The canonical numeral of a number, without leading zeros. */
  function Numeral(n: nat): (s: string)
    ensures s != "" && AllDigits(s)
  {
    if n < 10 then [('0' as int + n) as char]
    else Numeral(n / 10) + [('0' as int + n % 10) as char]
  }

  lemma {:induction false} DecimalOfNumeral(n: nat)
    ensures Decimal(Numeral(n)) == n
  {
    if n < 10 {
      assert Numeral(n)[..0] == "";
    } else {
      DecimalOfNumeral(n / 10);
      assert Numeral(n)[..|Numeral(n)| - 1] == Numeral(n / 10);
    }
  }

  /** Number of leading digits of `s`. */
  function DigitRun(s: string): (n: nat)
    ensures n <= |s| && AllDigits(s[..n])
    ensures n == |s| || !IsDigit(s[n])
  {
    if s != "" && IsDigit(s[0]) then
      var n := DigitRun(s[1..]);
      assert s[..n + 1] == [s[0]] + s[1..][..n];
      n + 1
    else 0
  }

  /** The number of the leading digits, if there is one. */
  function ReadNat(s: string): Option<nat> {
    var n := DigitRun(s);
    if n == 0 then None else Some(Decimal(s[..n]))
  }

  /** With a sign in front. */
  function ReadInt(s: string): Option<int> {
    var signed := s != "" && (s[0] == '-' || s[0] == '+');
    match ReadNat(if signed then s[1..] else s)
    case None => None
    case Some(n) => Some(if s[0] == '-' then -(n as int) else n)
  }

  /** JavaScript `parseInt(s, 10)`; None stands for NaN. */
  function ParseInt(s: string): Option<int> {
    ReadInt(TrimLeft(s, JsSpace))
  }

  lemma DigitRunOfNumeral(s: string)
    requires AllDigits(s)
    ensures DigitRun(s) == |s|
  {
    if s != "" {
      DigitRunOfNumeral(s[1..]);
    }
  }

  // ---- what parseInt reads ----

  predicate Sign(sign: string) {
    sign == "" || sign == "+" || sign == "-"
  }

  lemma {:induction false} DigitRunExact(digits: string, rest: string)
    requires AllDigits(digits) && (rest == "" || !IsDigit(rest[0]))
    ensures DigitRun(digits + rest) == |digits|
  {
    if digits == "" {
      assert digits + rest == rest;
    } else {
      assert digits[0] in digits && (digits + rest)[1..] == digits[1..] + rest;
      DigitRunExact(digits[1..], rest);
    }
  }

  lemma ReadNatReads(digits: string, rest: string)
    requires digits != "" && AllDigits(digits) && (rest == "" || !IsDigit(rest[0]))
    ensures ReadNat(digits + rest) == Some(Decimal(digits))
  {
    DigitRunExact(digits, rest);
    assert (digits + rest)[..|digits|] == digits;
  }

  lemma ReadIntReads(sign: string, body: string, n: nat)
    requires Sign(sign) && body != "" && IsDigit(body[0]) && ReadNat(body) == Some(n)
    ensures sign + body != "" && !JsSpace((sign + body)[0])
    ensures ReadInt(sign + body) == Some(if sign == "-" then -(n as int) else n)
  {
    SignedText(sign, body);
  }

  lemma StartsWith(digits: string, rest: string)
    requires digits != "" && AllDigits(digits)
    ensures digits + rest != "" && IsDigit((digits + rest)[0])
  {
    assert digits[0] in digits;
  }

  lemma SignedText(sign: string, body: string)
    requires Sign(sign) && body != "" && IsDigit(body[0])
    ensures var t := sign + body;
            && t != "" && !JsSpace(t[0]) && (t[0] == '-' <==> sign == "-")
            && (t[0] == '-' || t[0] == '+' <==> sign != "")
            && (if sign != "" then t[1..] else t) == body
  {
    assert sign != "" ==> (sign + body)[1..] == body;
  }

  /** Digits and then anything that is no digit: the number is that of the digits, leading zeros
      included. */
  lemma NumberReads(digits: string, rest: string)
    requires digits != "" && AllDigits(digits) && (rest == "" || !IsDigit(rest[0]))
    ensures digits + rest != "" && IsDigit((digits + rest)[0]) && ReadNat(digits + rest) == Some(Decimal(digits))
  {
    StartsWith(digits, rest);
    ReadNatReads(digits, rest);
  }

  lemma ReadTrimmed(space: string, t: string)
    requires All(space, JsSpace) && t != "" && !JsSpace(t[0])
    ensures ParseInt(space + t) == ReadInt(t)
  {
    TrimLeftPadding(space, t, JsSpace);
  }

  /** Space in front, a sign and a text that begins with a number: `parseInt` reads that number with
      the sign. */
  lemma ParseIntReads(space: string, sign: string, body: string, n: nat)
    requires All(space, JsSpace) && Sign(sign) && body != "" && IsDigit(body[0]) && ReadNat(body) == Some(n)
    ensures ParseInt(space + (sign + body)) == Some(if sign == "-" then -(n as int) else n)
  {
    ReadIntReads(sign, body, n);
    ReadTrimmed(space, sign + body);
  }

  lemma ParseIntNumeral(n: nat)
    ensures ParseInt(Numeral(n)) == Some(n as int)
  {
    var s := Numeral(n);
    DecimalOfNumeral(n);
    NumberReads(s, "");
    assert s + "" == s && "" + ("" + s) == s;
    ParseIntReads("", "", s, n);
  }

  lemma ReadNatForm(s: string)
    returns (digits: string, rest: string)
    requires ReadNat(s).Some?
    ensures s == digits + rest && digits != "" && AllDigits(digits) && (rest == "" || !IsDigit(rest[0]))
  {
    digits, rest := s[..DigitRun(s)], s[DigitRun(s)..];
  }

  lemma SignCut(s: string)
    returns (sign: string, body: string)
    requires ReadInt(s).Some?
    ensures s == sign + body && Sign(sign) && ReadNat(body).Some?
  {
    sign, body := "", s;
    if s != "" && (s[0] == '-' || s[0] == '+') {
      sign, body := s[..1], s[1..];
      assert sign == [s[0]];
    }
  }

  /** And when it reads a number the text has that form; every other text is NaN. */
  lemma ParseIntForm(s: string)
    returns (space: string, sign: string, digits: string, rest: string)
    requires ParseInt(s).Some?
    ensures s == space + (sign + (digits + rest)) && All(space, JsSpace) && Sign(sign)
    ensures digits != "" && AllDigits(digits) && (rest == "" || !IsDigit(rest[0]))
  {
    var t := TrimLeft(s, JsSpace);
    LeftIsSpace(s, JsSpace);
    space := s[..|s| - |t|];
    SuffixCut(s, t);
    var body;
    sign, body := SignCut(t);
    digits, rest := ReadNatForm(body);
  }

  /** The digits denote a number whose canonical numeral they are, after leading zeros. */
  lemma {:induction false} DecimalExact(digits: string)
    returns (zeros: string)
    requires digits != "" && AllDigits(digits)
    ensures digits == zeros + Numeral(Decimal(digits)) && forall c :: c in zeros ==> c == '0'
  {
    var last := |digits| - 1;
    var d := digits[last];
    var v := DigitValue(d);
    assert ('0' as int + v) as char == d;
    if last == 0 {
      zeros := "";
      assert digits[..last] == "" && digits == [d];
    } else {
      var front := digits[..last];
      assert front != "" && digits == front + [d];
      zeros := DecimalExact(front);
      if Decimal(front) == 0 {
        zeros := zeros + "0";
        assert Numeral(0) == "0";
      } else {
        assert Decimal(digits) >= 10 && Decimal(digits) / 10 == Decimal(front) && Decimal(digits) % 10 == v;
      }
    }
  }
}
