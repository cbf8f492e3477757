/** Software packing of floating-point numbers, over exact reals and for any field widths. */
module Ieee754 {
  import opened Bytes

  /** Widths of the significand and exponent fields; the word has one more bit for the sign. */
  datatype Format = Format(s: nat, e: nat)

  type Fmt = f: Format | f.e > 0 witness Format(23, 8)

  function Bias(f: Fmt): int {
    Pow2(f.e - 1) - 1
  }

  /** y times two to the k. */
  function Scale(y: real, k: int): real
    decreases if k < 0 then 0 - k else k
  {
    if k == 0 then y else if k > 0 then 2.0 * Scale(y, k - 1) else Scale(y, k + 1) / 2.0
  }

  lemma {:induction false} ScaleStep(y: real, k: int)
    ensures Scale(y, k + 1) == 2.0 * Scale(y, k)
  {
  }

  lemma {:induction false} ScaleInside(y: real, k: int)
    ensures Scale(2.0 * y, k) == Scale(y, k + 1) && Scale(0.0 - y, k) == 0.0 - Scale(y, k)
    decreases if k < 0 then 0 - k else k
  {
    if k > 0 {
      ScaleInside(y, k - 1);
    } else if k < 0 {
      ScaleInside(y, k + 1);
    }
    ScaleStep(y, k);
  }

  lemma {:induction false} ScaleSign(y: real, k: int)
    requires y > 0.0
    ensures Scale(y, k) > 0.0
    decreases if k < 0 then 0 - k else k
  {
    if k > 0 {
      ScaleSign(y, k - 1);
    } else if k < 0 {
      ScaleSign(y, k + 1);
    }
  }

  // ----- normalisation: x is m * 2^e with 1 <= m < 2, in exactly one way -----

  predicate Normal(x: real, m: real, e: int) {
    1.0 <= m < 2.0 && x == Scale(m, e)
  }

  lemma HalfFloor(x: real)
    requires x >= 1.0
    ensures 0 <= (x / 2.0).Floor < x.Floor
  {
  }

  lemma Inverse(x: real)
    requires 0.0 < x < 1.0
    ensures 1.0 / x >= 1.0 && 1.0 / (2.0 * x) == (1.0 / x) / 2.0
  {
    var y := 1.0 / x;
    assert y * x == 1.0;
    assert (y - 1.0) * x == 1.0 - x;
    PositiveFactor(y - 1.0, x);
    assert (y / 2.0) * (2.0 * x) == 1.0;
    Quotient(y / 2.0, 2.0 * x, 1.0);
  }

  lemma PositiveFactor(a: real, b: real)
    requires b > 0.0 && a * b > 0.0
    ensures a > 0.0
  {
  }

  lemma Monotone(a: real, b: real, c: real)
    requires a <= b && c >= 0.0
    ensures a * c <= b * c
  {
  }

  lemma Quotient(q: real, d: real, n: real)
    requires d != 0.0 && q * d == n
    ensures n / d == q
  {
  }

  /** The two loops in front of packing; both end. */
  method Normalise(x: real) returns (m: real, e: int)
    requires x > 0.0
    ensures Normal(x, m, e)
  {
    m, e := x, 0;
    while m >= 2.0
      invariant m > 0.0 && x == Scale(m, e)
      decreases m.Floor
    {
      HalfFloor(m);
      ScaleInside(m / 2.0, e);
      m, e := m / 2.0, e + 1;
    }
    while m < 1.0
      invariant 0.0 < m < 2.0 && x == Scale(m, e)
      decreases if m < 1.0 then (1.0 / m).Floor else 0
    {
      Inverse(m);
      HalfFloor(1.0 / m);
      ScaleInside(m, e - 1);
      m, e := 2.0 * m, e - 1;
    }
  }

  lemma {:induction false} NormalBounds(m: real, e: int)
    requires 1.0 <= m < 2.0
    ensures (e >= 0 ==> Scale(m, e) >= 1.0) && (e >= 1 ==> Scale(m, e) >= 2.0) && (e < 0 ==> Scale(m, e) < 1.0)
    decreases if e < 0 then 0 - e else e
  {
    if e > 0 {
      NormalBounds(m, e - 1);
    } else if e < 0 {
      NormalBounds(m, e + 1);
    }
  }

  lemma {:induction false} NormalUnique(x: real, m: real, e: int, n: real, k: int)
    requires Normal(x, m, e) && Normal(x, n, k)
    ensures m == n && e == k
    decreases if e < 0 then 0 - e else e
  {
    NormalBounds(m, e);
    NormalBounds(n, k);
    if e > 0 {
      ScaleStep(n, k - 1);
      NormalUnique(x / 2.0, m, e - 1, n, k - 1);
    } else if e < 0 {
      ScaleStep(n, k);
      NormalUnique(2.0 * x, m, e + 1, n, k + 1);
    }
  }

  // ----- the fraction field -----

  function Fraction(f: Fmt, k: nat): real {
    k as real / Pow2(f.s) as real
  }

  lemma FractionBelowOne(f: Fmt, k: nat)
    requires k < Pow2(f.s)
    ensures 0.0 <= Fraction(f, k) < 1.0 && Fraction(f, k) * Pow2(f.s) as real == k as real
  {
    var q, p := Fraction(f, k), Pow2(f.s) as real;
    assert q * p == k as real;
    if q >= 1.0 {
      Monotone(1.0, q, p);
    }
    if q < 0.0 {
      Monotone(q, 0.0, p);
      StrictlyNegative(q, p);
    }
  }

  lemma StrictlyNegative(a: real, b: real)
    requires a < 0.0 && b > 0.0
    ensures a * b < 0.0
  {
  }

  /** Any factor from 2^s to 2^s + 0.5 recovers the fraction field: the added half never disturbs it. */
  lemma HalfHarmless(f: Fmt, k: nat, factor: real)
    requires k < Pow2(f.s) && Pow2(f.s) as real <= factor <= Pow2(f.s) as real + 0.5
    ensures (Fraction(f, k) * factor).Floor == k
  {
    var q, p := Fraction(f, k), Pow2(f.s) as real;
    FractionBelowOne(f, k);
    Monotone(p, factor, q);
    Monotone(factor, p + 0.5, q);
    assert q * factor >= k as real;
    assert q * (p + 0.5) == q * p + q * 0.5 by { Distribute(q, p, 0.5); }
    assert q * factor < k as real + 1.0;
  }

  lemma Distribute(a: real, b: real, c: real)
    ensures a * (b + c) == a * b + a * c
  {
  }

  // ----- words -----

  /** w shifted right by k bits. */
  function Shifted(w: nat, k: nat): nat {
    Quot(w, Pow2(k))
  }

  function Quot(w: nat, n: nat): nat
    requires n > 0
  {
    w / n
  }

  function SignOf(f: Fmt, w: nat): nat {
    Shifted(w, f.s + f.e)
  }

  function ExponentOf(f: Fmt, w: nat): nat {
    Shifted(w, f.s) % Pow2(f.e)
  }

  function SignificandOf(f: Fmt, w: nat): nat {
    w % Pow2(f.s)
  }

  /** The three fields, side by side. */
  function Word(f: Fmt, sign: nat, exponent: nat, significand: nat): nat {
    sign * Pow2(f.s + f.e) + exponent * Pow2(f.s) + significand
  }

  lemma Commute(a: nat, b: nat)
    ensures a * (2 * b) == 2 * (a * b)
  {
  }

  lemma {:induction false} Pow2Sum(a: nat, b: nat)
    ensures Pow2(a + b) == Pow2(a) * Pow2(b)
  {
    if b > 0 {
      Pow2Sum(a, b - 1);
      Commute(Pow2(a), Pow2(b - 1));
    }
  }

  lemma FieldsOfWord(f: Fmt, sign: nat, exponent: nat, significand: nat)
    requires exponent < Pow2(f.e) && significand < Pow2(f.s)
    ensures var w := Word(f, sign, exponent, significand);
            SignOf(f, w) == sign && ExponentOf(f, w) == exponent && SignificandOf(f, w) == significand
  {
    var p, q := Pow2(f.s), Pow2(f.e);
    var w := Word(f, sign, exponent, significand);
    Pow2Sum(f.s, f.e);
    assert w == (sign * q + exponent) * p + significand by { Regroup(sign, exponent, p, q); }
    DivUnique(w, p, sign * q + exponent, significand);
    DivUnique(sign * q + exponent, q, sign, exponent);
    assert exponent * p + significand < q * p by { Inside(exponent, significand, p, q); }
    DivUnique(w, p * q, sign, exponent * p + significand);
  }

  lemma Regroup(sign: nat, exponent: nat, p: nat, q: nat)
    ensures sign * (p * q) + exponent * p == (sign * q + exponent) * p
  {
    assert sign * (p * q) == (sign * q) * p;
  }

  lemma Inside(exponent: nat, significand: nat, p: nat, q: nat)
    requires exponent < q && significand < p
    ensures exponent * p + significand < q * p
  {
    assert (exponent + 1) * p <= q * p;
  }

  lemma WordOfFields(f: Fmt, w: nat)
    ensures Word(f, SignOf(f, w), ExponentOf(f, w), SignificandOf(f, w)) == w
    ensures ExponentOf(f, w) < Pow2(f.e) && SignificandOf(f, w) < Pow2(f.s)
  {
    hide Pow2;
    Pow2Sum(f.s, f.e);
    TwoDivisions(w, Pow2(f.s), Pow2(f.e));
  }

  lemma TwoDivisions(w: nat, p: nat, q: nat)
    requires p > 0 && q > 0
    ensures p * q > 0 && w == Quot(w, p * q) * (p * q) + (Quot(w, p) % q) * p + w % p
  {
    var h := Quot(w, p);
    var a, b, c := Quot(h, q), h % q, w % p;
    Divided(w, p);
    Divided(h, q);
    Regroup(a, b, p, q);
    Inside(b, c, p, q);
    DivUnique(w, p * q, a, b * p + c);
  }

  lemma Divided(w: nat, n: nat)
    requires n > 0
    ensures w == Quot(w, n) * n + w % n && 0 <= w % n < n
  {
  }

  // ----- unpacking -----

  function Unpacked(f: Fmt, w: nat): real {
    var x := Scale(1.0 + Fraction(f, SignificandOf(f, w)), ExponentOf(f, w) - Bias(f));
    if SignOf(f, w) % 2 == 1 then 0.0 - x else x
  }

  method Unpack(f: Fmt, w: nat) returns (result: real)
    ensures result == Unpacked(f, w)
  {
    result := SignificandOf(f, w) as real;
    result := result / Pow2(f.s) as real;
    result := result + 1.0;
    ghost var y := result;
    var shift := ExponentOf(f, w) - Bias(f);
    while shift > 0
      invariant Scale(result, shift) == Scale(y, ExponentOf(f, w) - Bias(f))
    {
      ScaleInside(result, shift - 1);
      result := result * 2.0;
      shift := shift - 1;
    }
    while shift < 0
      invariant Scale(result, shift) == Scale(y, ExponentOf(f, w) - Bias(f)) && shift <= 0
    {
      ScaleInside(result / 2.0, shift);
      result := result / 2.0;
      shift := shift + 1;
    }
    result := result * (if SignOf(f, w) % 2 == 1 then -1.0 else 1.0);
  }

  // ----- packing -----

  /** Sign and magnitude of a number, normalised. */
  predicate Magnitude(x: real, sign: nat, m: real, e: int) {
    (if x < 0.0 then sign == 1 && Normal(0.0 - x, m, e) else sign == 0 && Normal(x, m, e))
  }

  /** w is the packed form of x, computed with the given factor. */
  ghost predicate IsPacked(f: Fmt, x: real, factor: real, w: nat) {
    exists sign: nat, m: real, e: int :: Magnitude(x, sign, m, e) && PacksAs(f, sign, m, e, factor, w)
  }

  predicate PacksAs(f: Fmt, sign: nat, m: real, e: int, factor: real, w: nat) {
    e + Bias(f) >= 0 && ((m - 1.0) * factor).Floor >= 0 && w == Word(f, sign, e + Bias(f), ((m - 1.0) * factor).Floor)
  }

  /** x has a normalised form whose exponent the field can hold. */
  ghost predicate InRange(f: Fmt, x: real) {
    exists sign: nat, m: real, e: int :: Magnitude(x, sign, m, e) && 0 <= e + Bias(f) < Pow2(f.e)
  }

  lemma MagnitudeUnique(x: real, sign: nat, m: real, e: int, sign': nat, m': real, e': int)
    requires Magnitude(x, sign, m, e) && Magnitude(x, sign', m', e')
    ensures sign == sign' && m == m' && e == e'
  {
    NormalUnique(if x < 0.0 then 0.0 - x else x, m, e, m', e');
  }

  method Pack(f: Fmt, x: real, factor: real) returns (w: nat)
    requires x != 0.0 && InRange(f, x) && Pow2(f.s) as real <= factor <= Pow2(f.s) as real + 0.5
    ensures IsPacked(f, x, factor, w)
  {
    hide Pow2, Scale;
    var sign, fnorm := 0, x;
    if x < 0.0 {
      sign, fnorm := 1, 0.0 - x;
    }
    var m, shift := Normalise(fnorm);
    assert Magnitude(x, sign, m, shift);
    ghost var s', m', e' :| Magnitude(x, s', m', e') && 0 <= e' + Bias(f) < Pow2(f.e);
    MagnitudeUnique(x, sign, m, shift, s', m', e');
    fnorm := m - 1.0;
    Product(fnorm, factor);
    var significand := (fnorm * factor).Floor;
    var exponent := shift + Bias(f);
    w := sign * Pow2(f.s + f.e) + exponent * Pow2(f.s) + significand;
    assert PacksAs(f, sign, m, shift, factor, w);
  }

  lemma Product(a: real, b: real)
    requires a >= 0.0 && b >= 0.0
    ensures a * b >= 0.0
  {
  }

  lemma PackedUnique(f: Fmt, x: real, factor: real, w: nat, w': nat)
    requires IsPacked(f, x, factor, w) && IsPacked(f, x, factor, w')
    ensures w == w'
  {
    hide Word, Bias, Magnitude, PacksAs;
    var a, m, e :| Magnitude(x, a, m, e) && PacksAs(f, a, m, e, factor, w);
    var b, n, k :| Magnitude(x, b, n, k) && PacksAs(f, b, n, k, factor, w');
    MagnitudeUnique(x, a, m, e, b, n, k);
    PacksOnce(f, a, m, e, factor, w, w');
  }

  lemma PacksOnce(f: Fmt, sign: nat, m: real, e: int, factor: real, w: nat, w': nat)
    requires PacksAs(f, sign, m, e, factor, w) && PacksAs(f, sign, m, e, factor, w')
    ensures w == w'
  {
    hide Word, Bias;
  }

  // ----- round trips -----

  /** A word of the format: the sign takes one bit. */
  predicate IsWord(f: Fmt, w: nat) {
    SignOf(f, w) < 2
  }

  lemma UnpackedMagnitude(f: Fmt, w: nat)
    requires IsWord(f, w)
    ensures Magnitude(Unpacked(f, w), SignOf(f, w), 1.0 + Fraction(f, SignificandOf(f, w)), ExponentOf(f, w) - Bias(f))
  {
    hide SignOf, ExponentOf, SignificandOf, Fraction;
    var m, e := 1.0 + Fraction(f, SignificandOf(f, w)), ExponentOf(f, w) - Bias(f);
    WordOfFields(f, w);
    FractionBelowOne(f, SignificandOf(f, w));
    ScaleSign(m, e);
  }

  /** Packing an unpacked word gives the word back, for every word and every admissible factor. */
  lemma PackUnpacked(f: Fmt, w: nat, factor: real)
    requires IsWord(f, w) && Pow2(f.s) as real <= factor <= Pow2(f.s) as real + 0.5
    ensures IsPacked(f, Unpacked(f, w), factor, w)
    ensures Unpacked(f, w) != 0.0 && InRange(f, Unpacked(f, w))
  {
    hide SignOf, ExponentOf, SignificandOf, Fraction, Unpacked, Word, Pow2, Scale, Bias, Magnitude, PacksAs;
    WordOfFields(f, w);
    UnpackedMagnitude(f, w);
    var m, e := 1.0 + Fraction(f, SignificandOf(f, w)), ExponentOf(f, w) - Bias(f);
    HalfOfMantissa(f, SignificandOf(f, w), m, factor);
    PacksExactly(f, SignOf(f, w), m, e, factor, ExponentOf(f, w), SignificandOf(f, w), w);
    NotZero(Unpacked(f, w), SignOf(f, w), m, e);
  }

  lemma HalfOfMantissa(f: Fmt, k: nat, m: real, factor: real)
    requires k < Pow2(f.s) && Pow2(f.s) as real <= factor <= Pow2(f.s) as real + 0.5 && m == 1.0 + Fraction(f, k)
    ensures ((m - 1.0) * factor).Floor == k
  {
    hide Fraction, Pow2;
    HalfHarmless(f, k, factor);
    assert m - 1.0 == Fraction(f, k);
  }

  lemma PacksExactly(f: Fmt, sign: nat, m: real, e: int, factor: real, exponent: nat, significand: nat, w: nat)
    requires e + Bias(f) == exponent && ((m - 1.0) * factor).Floor == significand && w == Word(f, sign, exponent, significand)
    ensures PacksAs(f, sign, m, e, factor, w)
  {
    hide Bias, Word;
  }

  lemma NotZero(x: real, sign: nat, m: real, e: int)
    requires Magnitude(x, sign, m, e)
    ensures x != 0.0
  {
    ScaleSign(m, e);
  }

  /** x is a number the format can represent, with a nonzero implicit bit. */
  ghost predicate Representable(f: Fmt, x: real) {
    exists w: nat :: IsWord(f, w) && Unpacked(f, w) == x
  }

  /** Unpacking a packed number gives the number back exactly when the format can represent it. */
  lemma UnpackPacked(f: Fmt, x: real, factor: real, w: nat)
    requires x != 0.0 && InRange(f, x) && Pow2(f.s) as real <= factor <= Pow2(f.s) as real + 0.5
    requires IsPacked(f, x, factor, w) && IsWord(f, w)
    ensures Unpacked(f, w) == x <==> Representable(f, x)
  {
    hide Unpacked, IsPacked, InRange;
    if Representable(f, x) {
      var v: nat :| IsWord(f, v) && Unpacked(f, v) == x;
      PackUnpacked(f, v, factor);
      PackedUnique(f, x, factor, v, w);
    }
  }

  // ----- floats -----

  datatype Float = NaN | Infinity(negative: bool) | Zero(negative: bool) | Finite(x: real)

  function Flag(b: bool): nat {
    if b then 1 else 0
  }

  function AllOnes(f: Fmt): nat {
    Pow2(f.e) - 1
  }

  /** Exponent fields that are neither all zero nor all one. */
  ghost predicate NormalNumber(f: Fmt, x: real) {
    exists w: nat :: IsWord(f, w) && Unpacked(f, w) == x && 0 < ExponentOf(f, w) < AllOnes(f)
  }

  /** A float the round trip is about: special values and normal numbers. */
  ghost predicate Proper(f: Fmt, v: Float) {
    v.Finite? ==> NormalNumber(f, v.x)
  }

  method EncodeFloat(f: Fmt, v: Float, factor: real) returns (w: nat)
    requires f.s > 0 && Proper(f, v) && Pow2(f.s) as real <= factor <= Pow2(f.s) as real + 0.5
    ensures Decoded(f, w) == v && IsWord(f, w)
    ensures v.NaN? ==> w == Word(f, 1, Pow2(f.e) - 1, Pow2(f.s - 1))
  {
    hide Unpacked, IsPacked, InRange, SignOf, ExponentOf, SignificandOf, Word;
    PowPositive(f);
    match v
    case NaN =>
      w := Word(f, 1, AllOnes(f), Pow2(f.s - 1));
      FieldsOfWord(f, 1, AllOnes(f), Pow2(f.s - 1));
    case Zero(negative) =>
      w := Word(f, Flag(negative), 0, 0);
      FieldsOfWord(f, Flag(negative), 0, 0);
    case Infinity(negative) =>
      w := Word(f, Flag(negative), AllOnes(f), 0);
      FieldsOfWord(f, Flag(negative), AllOnes(f), 0);
    case Finite(x) =>
      ghost var u: nat :| IsWord(f, u) && Unpacked(f, u) == x && 0 < ExponentOf(f, u) < AllOnes(f);
      PackUnpacked(f, u, factor);
      w := Pack(f, x, factor);
      PackedUnique(f, x, factor, u, w);
  }

  lemma PowPositive(f: Fmt)
    requires f.s > 0
    ensures Pow2(f.s - 1) < Pow2(f.s) && AllOnes(f) > 0
  {
  }

  function Decoded(f: Fmt, w: nat): Float {
    if ExponentOf(f, w) == 0 && SignificandOf(f, w) == 0 then Zero(SignOf(f, w) == 1)
    else if ExponentOf(f, w) == AllOnes(f) then
      if SignificandOf(f, w) == 0 then Infinity(SignOf(f, w) == 1) else NaN
    else Finite(Unpacked(f, w))
  }

  method DecodeFloat(f: Fmt, w: nat) returns (v: Float)
    ensures v == Decoded(f, w)
  {
    if ExponentOf(f, w) == 0 && SignificandOf(f, w) == 0 {
      v := Zero(SignOf(f, w) == 1);
    } else if ExponentOf(f, w) == AllOnes(f) && SignificandOf(f, w) == 0 {
      v := Infinity(SignOf(f, w) == 1);
    } else if ExponentOf(f, w) == AllOnes(f) {
      v := NaN;
    } else {
      var x := Unpack(f, w);
      v := Finite(x);
    }
  }

  /** Apart from NaN payloads a word is determined by the float it decodes to, so encoding inverts decoding. */
  lemma DecodedInjective(f: Fmt, w: nat, w': nat)
    requires IsWord(f, w) && IsWord(f, w') && Decoded(f, w) == Decoded(f, w') && !Decoded(f, w).NaN?
    ensures w == w'
  {
    hide Unpacked, SignOf, ExponentOf, SignificandOf, Word, Pow2;
    WordOfFields(f, w);
    WordOfFields(f, w');
    if Decoded(f, w).Finite? {
      PackUnpacked(f, w, Pow2(f.s) as real);
      PackUnpacked(f, w', Pow2(f.s) as real);
      PackedUnique(f, Unpacked(f, w), Pow2(f.s) as real, w, w');
    }
  }

  // ----- the numbers the words stand for -----

  lemma HalfOfTwo(f: Fmt)
    ensures Pow2(f.e) == 2 * Pow2(f.e - 1) && Pow2(f.e - 1) >= 1
  {
  }

  /** The exponent field 2^(e-1) - 1 stands for the factor one: the number is 1 + k / 2^s, or its negative. */
  lemma UnitExponent(f: Fmt, sign: nat, k: nat)
    requires sign < 2 && k < Pow2(f.s)
    ensures Unpacked(f, Word(f, sign, Pow2(f.e - 1) - 1, k)) ==
            (if sign == 1 then -1.0 else 1.0) * (1.0 + k as real / Pow2(f.s) as real)
  {
    hide Word, Pow2, SignOf, ExponentOf, SignificandOf;
    HalfOfTwo(f);
    FieldsOfWord(f, sign, Pow2(f.e - 1) - 1, k);
  }

  /** One more in the exponent field is twice the number. */
  lemma NextExponent(f: Fmt, sign: nat, exponent: nat, k: nat)
    requires sign < 2 && exponent + 1 < Pow2(f.e) && k < Pow2(f.s)
    ensures Unpacked(f, Word(f, sign, exponent + 1, k)) == 2.0 * Unpacked(f, Word(f, sign, exponent, k))
  {
    hide Word, Pow2, SignOf, ExponentOf, SignificandOf, Fraction;
    FieldsOfWord(f, sign, exponent, k);
    FieldsOfWord(f, sign, exponent + 1, k);
    ScaleStep(1.0 + Fraction(f, k), exponent - Bias(f));
  }

  /** One is packed as the word with that exponent field and nothing else, with every admissible factor. */
  lemma OnePacked(f: Fmt, factor: real, w: nat)
    requires f.s + f.e > 0 && Pow2(f.s) as real <= factor <= Pow2(f.s) as real + 0.5
    ensures IsPacked(f, 1.0, factor, w) <==> w == (Pow2(f.e - 1) - 1) * Pow2(f.s)
  {
    hide Pow2, SignOf, ExponentOf, SignificandOf, Unpacked, IsPacked, InRange;
    var u := Word(f, 0, Pow2(f.e - 1) - 1, 0);
    HalfOfTwo(f);
    FieldsOfWord(f, 0, Pow2(f.e - 1) - 1, 0);
    UnitExponent(f, 0, 0);
    Quotient(0.0, Pow2(f.s) as real, 0.0);
    PackUnpacked(f, u, factor);
    if IsPacked(f, 1.0, factor, w) {
      PackedUnique(f, 1.0, factor, u, w);
    }
  }

  const SINGLE: Fmt := Format(23, 8)
  const DOUBLE: Fmt := Format(52, 11)

  /** The words the encoder writes for special values are the constants of the two formats. */
  lemma SpecialWords()
    ensures Word(SINGLE, 1, AllOnes(SINGLE), Pow2(SINGLE.s - 1)) == 0xffc0_0000 && Word(SINGLE, 0, AllOnes(SINGLE), 0) == 0x7f80_0000
    ensures Word(SINGLE, 1, AllOnes(SINGLE), 0) == 0xff80_0000 && Word(SINGLE, 1, 0, 0) == 0x8000_0000
    ensures Word(DOUBLE, 1, AllOnes(DOUBLE), Pow2(DOUBLE.s - 1)) == 0xfff8_0000_0000_0000
    ensures Word(DOUBLE, 0, AllOnes(DOUBLE), 0) == 0x7ff0_0000_0000_0000
    ensures Word(DOUBLE, 1, AllOnes(DOUBLE), 0) == 0xfff0_0000_0000_0000 && Word(DOUBLE, 1, 0, 0) == 0x8000_0000_0000_0000
  {
    assert Pow2(7) == 128 by { assert Pow2(4) == 16; }
    assert Pow2(11) == 2048 by { Pow2Sum(7, 4); assert Pow2(4) == 16; }
    assert Pow2(22) == 0x40_0000 by { Pow2Sum(11, 11); }
    assert Pow2(44) == 0x1000_0000_0000 by { Pow2Sum(22, 22); }
    assert Pow2(51) == 0x8_0000_0000_0000 by { Pow2Sum(44, 7); }
    assert Pow2(31) == 0x8000_0000 by { Pow2Sum(23, 8); }
    assert Pow2(63) == 0x8000_0000_0000_0000 by { Pow2Sum(52, 11); }
  }

  /** The words of one and of minus two, in both formats. */
  lemma UnitWords()
    ensures Unpacked(SINGLE, 0x3F80_0000) == 1.0 && Unpacked(SINGLE, 0xC000_0000) == -2.0
    ensures Unpacked(DOUBLE, 0x3FF0_0000_0000_0000) == 1.0 && Unpacked(DOUBLE, 0xC000_0000_0000_0000) == -2.0
  {
    hide Unpacked;
    SingleUnits();
    DoubleUnits();
  }

  lemma SingleUnits()
    ensures Unpacked(SINGLE, 0x3F80_0000) == 1.0 && Unpacked(SINGLE, 0xC000_0000) == -2.0
  {
    hide Unpacked;
    FormatPowers();
    UnitExponent(SINGLE, 0, 0);
    UnitExponent(SINGLE, 1, 0);
    NextExponent(SINGLE, 1, 127, 0);
  }

  lemma DoubleUnits()
    ensures Unpacked(DOUBLE, 0x3FF0_0000_0000_0000) == 1.0 && Unpacked(DOUBLE, 0xC000_0000_0000_0000) == -2.0
  {
    hide Unpacked;
    FormatPowers();
    UnitExponent(DOUBLE, 0, 0);
    UnitExponent(DOUBLE, 1, 0);
    NextExponent(DOUBLE, 1, 1023, 0);
  }

  lemma FormatPowers()
    ensures Pow2(7) == 128 && Pow2(8) == 256 && Pow2(10) == 1024 && Pow2(11) == 2048
    ensures Pow2(23) == 0x80_0000 && Pow2(31) == 0x8000_0000 && Pow2(52) == 0x10_0000_0000_0000 && Pow2(63) == 0x8000_0000_0000_0000
  {
    assert Pow2(7) == 128 by { assert Pow2(4) == 16; }
    assert Pow2(11) == 2048 by { Pow2Sum(7, 4); assert Pow2(4) == 16; }
    assert Pow2(22) == 0x40_0000 by { Pow2Sum(11, 11); }
    assert Pow2(44) == 0x1000_0000_0000 by { Pow2Sum(22, 22); }
    assert Pow2(52) == 0x10_0000_0000_0000 by { Pow2Sum(44, 8); }
    assert Pow2(31) == 0x8000_0000 by { Pow2Sum(23, 8); }
    assert Pow2(63) == 0x8000_0000_0000_0000 by { Pow2Sum(52, 11); }
  }
}
