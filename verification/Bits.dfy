/** JavaScript's 32-bit operators on numbers, and what masks do in terms of division. */
module Bits {

  const WORD := 0x1_0000_0000

  function Pow2(n: nat): (p: nat)
    ensures p >= 1
  {
    if n == 0 then 1 else 2 * Pow2(n - 1)
  }

  /** The signed number JavaScript's bitwise operators return. */
  function ToInt32(x: int): (r: int)
    ensures -0x8000_0000 <= r < 0x8000_0000
  {
    var u := x % WORD;
    if u < 0x8000_0000 then u else u - WORD
  }

  /** `x >>> 0`. */
  function ToUint32(x: int): (r: nat)
    ensures r < WORD
  {
    x % WORD
  }

  function BitAnd(a: nat, b: nat): nat {
    if a == 0 || b == 0 then 0 else 2 * BitAnd(a / 2, b / 2) + if a % 2 == 1 && b % 2 == 1 then 1 else 0
  }

  function BitOr(a: nat, b: nat): nat
    decreases a + b
  {
    if a == 0 then b else if b == 0 then a
    else 2 * BitOr(a / 2, b / 2) + if a % 2 == 1 || b % 2 == 1 then 1 else 0
  }

  /** `a & b`, `a | b` and `a << k`: operands are taken modulo 2^32, the shift count modulo 32. */
  function JsAnd(a: int, b: int): int {
    ToInt32(BitAnd(ToUint32(a), ToUint32(b)))
  }

  function JsOr(a: int, b: int): int {
    ToInt32(BitOr(ToUint32(a), ToUint32(b)))
  }

  function JsShl(a: int, k: nat): int {
    ToInt32(ToUint32(a) * Pow2(k % 32))
  }

  lemma SignedUnsigned(x: int)
    ensures ToUint32(ToInt32(x)) == ToUint32(x)
  {}

  lemma Pow2Values()
    ensures Pow2(8) == 0x100 && Pow2(16) == 0x1_0000 && Pow2(24) == 0x100_0000 && Pow2(32) == WORD
  {
    assert Pow2(4) == 16 && Pow2(8) == 256 && Pow2(12) == 4096 && Pow2(16) == 65536;
    assert Pow2(20) == 0x10_0000 && Pow2(24) == 0x100_0000 && Pow2(28) == 0x1000_0000;
  }

  lemma WordIsPow2()
    ensures Pow2(32) == WORD
  {
    Pow2Values();
  }

  lemma {:induction false} Pow2Add(a: nat, b: nat)
    ensures Pow2(a + b) == Pow2(a) * Pow2(b)
  {
    if b > 0 {
      Pow2Add(a, b - 1);
      assert Pow2(a) * (2 * Pow2(b - 1)) == 2 * (Pow2(a) * Pow2(b - 1));
    } else {
      assert Pow2(a) * 1 == Pow2(a);
    }
  }

  lemma MulAtLeast(k: int, d: int)
    requires k >= 1 && d >= 0
    ensures k * d >= d
  {
    assert k * d == d + (k - 1) * d;
  }

  lemma DivModUnique(x: int, d: nat, q: int, r: int)
    requires d > 0 && x == q * d + r && 0 <= r < d
    ensures x / d == q && x % d == r
  {
    var e := x / d - q;
    assert x == (x / d) * d + x % d;
    assert e * d == (x / d) * d - q * d && (-e) * d == -(e * d);
    if e >= 1 {
      MulAtLeast(e, d);
    } else if e <= -1 {
      MulAtLeast(-e, d);
    }
  }

  lemma {:induction false} Pow2Mono(s: nat, w: nat)
    requires s <= w
    ensures Pow2(s) <= Pow2(w)
  {
    if s < w {
      Pow2Mono(s, w - 1);
    }
  }

  /** Dropping the low bit commutes with the remainder by a larger power of two. */
  lemma HalfMod(x: nat, s: nat)
    requires s >= 1
    ensures x % Pow2(s) == 2 * ((x / 2) % Pow2(s - 1)) + x % 2
  {
    var p := Pow2(s - 1);
    var q := (x / 2) / p;
    assert x / 2 == q * p + (x / 2) % p;
    assert x == 2 * (x / 2) + x % 2;
    assert x == q * (2 * p) + (2 * ((x / 2) % p) + x % 2);
    DivModUnique(x, 2 * p, q, 2 * ((x / 2) % p) + x % 2);
  }

  /** The word with the bits from `s` up to `w` set. */
  function HighMask(w: nat, s: nat): nat
    requires s <= w
  {
    Pow2Mono(s, w);
    Pow2(w) - Pow2(s)
  }

  /** And-ing with such a mask clears the low `s` bits. */
  lemma {:induction false} AndMask(x: nat, w: nat, s: nat)
    requires s <= w && x < Pow2(w)
    ensures BitAnd(x, HighMask(w, s)) == x - x % Pow2(s)
    decreases w
  {
    if s == w {
      DivModUnique(x, Pow2(s), 0, x);
    } else if s == 0 {
      AndOnes(x, w);
      DivModUnique(x, 1, x, 0);
    } else {
      AndMask(x / 2, w - 1, s - 1);
      AndMaskStep(x, Pow2(s), Pow2(s - 1), HighMask(w - 1, s - 1), s);
    }
  }

  lemma AndMaskStep(x: nat, p: nat, half: nat, m: nat, s: nat)
    requires s >= 1 && p == Pow2(s) && half == Pow2(s - 1)
    requires BitAnd(x / 2, m) == x / 2 - (x / 2) % half
    ensures BitAnd(x, 2 * m) == x - x % p
  {
    HalfMod(x, s);
    AndEven(x, m);
    var r := (x / 2) % half;
    assert x % p == 2 * r + x % 2;
  }

  lemma AndEven(x: nat, m: nat)
    ensures BitAnd(x, 2 * m) == 2 * BitAnd(x / 2, m)
  {}

  lemma {:induction false} AndOnes(x: nat, w: nat)
    requires x < Pow2(w)
    ensures BitAnd(x, Pow2(w) - 1) == x
  {
    if w > 0 {
      AndOnes(x / 2, w - 1);
      var m := Pow2(w) - 1;
      assert m % 2 == 1 && m / 2 == Pow2(w - 1) - 1;
    }
  }

  /** Or-ing numbers with disjoint bits adds them. */
  lemma {:induction false} OrAdds(a: nat, k: nat, b: nat)
    requires b < Pow2(k)
    ensures BitOr(a * Pow2(k), b) == a * Pow2(k) + b
  {
    if k > 0 && a > 0 && b > 0 {
      var h := a * Pow2(k - 1);
      assert a * Pow2(k) == 2 * h;
      OrAdds(a, k - 1, b / 2);
      assert (2 * h) / 2 == h && (2 * h) % 2 == 0;
    }
  }

  /** The mask the code computes for a prefix length; /0 is special-cased because a shift by 32
      is a shift by nothing. */
  function PrefixMask(bits: nat): nat
    requires bits <= 32
  {
    if bits == 0 then 0 else ToUint32(JsShl(0xffffffff, 32 - bits))
  }

  lemma OnesShifted(p: nat)
    requires 1 <= p < WORD
    ensures (0xffffffff * p) % WORD == WORD - p
  {
    assert 0xffffffff * p == (p - 1) * WORD + (WORD - p);
  }

  lemma PrefixMaskValue(bits: nat)
    requires bits <= 32
    ensures PrefixMask(bits) == HighMask(32, 32 - bits)
  {
    WordIsPow2();
    if bits > 0 {
      Pow2Mono(32 - bits, 31);
      assert Pow2(32) == 2 * Pow2(31);
      ShiftedMask(32 - bits, Pow2(32 - bits));
    }
  }

  lemma ShiftedMask(k: nat, p: nat)
    requires k < 32 && p == Pow2(k) && p < WORD
    ensures ToUint32(JsShl(0xffffffff, k)) == WORD - p
  {
    assert k % 32 == k;
    assert ToUint32(0xffffffff) == 0xffffffff;
    SignedUnsigned(0xffffffff * p);
    OnesShifted(p);
  }

  /** Two words agree under a prefix mask exactly when they agree after division. */
  lemma MaskedEqual(a: nat, b: nat, bits: nat)
    requires a < WORD && b < WORD && bits <= 32
    ensures JsAnd(a, PrefixMask(bits)) == JsAnd(b, PrefixMask(bits)) <==>
            a / Pow2(32 - bits) == b / Pow2(32 - bits)
  {
    var p := Pow2(32 - bits);
    var x, y := JsAnd(a, PrefixMask(bits)), JsAnd(b, PrefixMask(bits));
    assert 0 <= a - a % p < WORD && x == ToInt32(a - a % p) by { MaskedValue(a, bits); }
    assert 0 <= b - b % p < WORD && y == ToInt32(b - b % p) by { MaskedValue(b, bits); }
    assert x == y <==> a / p == b / p by { SameMasked(a, b, p); }
  }

  lemma SameMasked(a: nat, b: nat, p: nat)
    requires p > 0 && a < WORD && b < WORD && 0 <= a - a % p < WORD && 0 <= b - b % p < WORD
    ensures ToInt32(a - a % p) == ToInt32(b - b % p) <==> a / p == b / p
  {
    SignedDistinct(a - a % p, b - b % p);
    SameQuotient(a, b, p);
  }

  lemma MaskedValue(a: nat, bits: nat)
    requires a < WORD && bits <= 32
    ensures 0 <= a - a % Pow2(32 - bits) < WORD
    ensures JsAnd(a, PrefixMask(bits)) == ToInt32(a - a % Pow2(32 - bits))
  {
    var p, m := Pow2(32 - bits), PrefixMask(bits);
    assert BitAnd(a, m) == a - a % p by {
      WordIsPow2();
      PrefixMaskValue(bits);
      AndMask(a, 32, 32 - bits);
    }
    assert 0 <= a - a % p < WORD by { ModBelow(a, p); }
    assert JsAnd(a, m) == ToInt32(BitAnd(a, m)) by { JsAndWords(a, m); }
  }

  lemma JsAndWords(a: nat, b: nat)
    requires a < WORD && b < WORD
    ensures JsAnd(a, b) == ToInt32(BitAnd(a, b))
  {
    assert ToUint32(a) == a && ToUint32(b) == b;
  }

  lemma ModBelow(a: nat, p: nat)
    requires p > 0
    ensures 0 <= a % p <= a
  {
    assert a == p * (a / p) + a % p;
    if a < p {
      DivModUnique(a, p, 0, a);
    }
  }

  lemma SignedDistinct(x: nat, y: nat)
    requires x < WORD && y < WORD
    ensures ToInt32(x) == ToInt32(y) <==> x == y
  {}

  lemma SameQuotient(a: nat, b: nat, p: nat)
    requires p > 0
    ensures a - a % p == b - b % p <==> a / p == b / p
  {
    assert a == p * (a / p) + a % p && b == p * (b / p) + b % p;
    if a - a % p == b - b % p {
      DivModUnique(a, p, b / p, a % p);
    }
  }
}
