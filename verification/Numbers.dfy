/**
 What bit patterns stand for. The order of `Types`, which compares patterns, is the order of the numbers
 they encode: two's complement integers and IEEE 754 floats.
 */
module Numbers {
  import opened Prelude
  import opened Bytes
  import opened Types

  /** A number, counted in units of the smallest positive one for floats, or an infinity. */
  datatype Quantity = NegativeInfinity | Finite(units: int) | PositiveInfinity {
    predicate AtMost(other: Quantity) {
      NegativeInfinity? || other.PositiveInfinity? || (Finite? && other.Finite? && units <= other.units)
    }

    predicate Below(other: Quantity) {
      this != other && AtMost(other)
    }
  }

  /**
   The items of a kind: all numbers of its width, without zero or without what is no Unicode scalar value. The
   pattern that encodes absence is one that is not an item, if there is one.
   */
  lemma {:induction false} ItemsOfKind(kind: Kind, n: nat)
    ensures kind.Valid(n) <==> n < Pow256(kind.Width()) && (kind.Char? ==> n <= 0xD7FF || 0xE000 <= n <= 0x10FFFF)
                               && ((kind.UInt? || kind.Int?) && kind.nonZero ==> n != 0)
    ensures kind.Niche() <==> !kind.Valid(kind.Absent())
    ensures kind.Absent() < Pow256(kind.Width())
  {
  }

  /* ---------------------------------------------------------------- Integers */

  /** The integers of `w` bytes. */
  predicate Signed(w: ByteWidth, i: int) {
    0 <= 2 * i + Pow256(w) && 2 * i < Pow256(w)
  }

  /** The two's complement pattern of `i` in `w` bytes. */
  function SignedPattern(w: ByteWidth, i: int): nat
    requires Signed(w, i)
  {
    if i < 0 then i + Pow256(w) else i
  }

  /** Signed patterns compare as the integers they encode. */
  lemma {:induction false} SignedOrder(w: ByteWidth, nonZero: bool, i: int, j: int)
    requires Signed(w, i) && Signed(w, j)
    ensures Le(Int(w, nonZero), SignedPattern(w, i), SignedPattern(w, j)) <==> i <= j
    ensures Lt(Int(w, nonZero), SignedPattern(w, i), SignedPattern(w, j)) <==> i < j
    ensures Value(Int(w, nonZero), SignedPattern(w, i)) == Some(Finite(i))
  {
  }

  /** Every pattern is that of one integer. */
  lemma {:induction false} SignedPatterns(w: ByteWidth, n: nat) returns (i: int)
    requires n < Pow256(w)
    ensures Signed(w, i) && SignedPattern(w, i) == n
  {
    i := if n < Pow256(w) - n then n else n - Pow256(w);
  }

  /* ---------------------------------------------------------------- Floats */

  /** The weight of the exponent field: one more than the greatest fraction. */
  function Fractions(double: bool): nat {
    if double then 0x10_0000_0000_0000 else 0x80_0000
  }

  /** The number of exponents; the greatest is that of infinities and NaN. */
  function Exponents(double: bool): nat {
    if double then 2048 else 256
  }

  /** A finite magnitude in units of the smallest positive number: subnormal, or with the leading digit implied. */
  function Units(double: bool, exponent: nat, fraction: nat): nat {
    if exponent == 0 then fraction else Pow2(exponent - 1) * (Fractions(double) + fraction)
  }

  /** The number a float encodes in sign, exponent and fraction; NaN encodes none. */
  function FloatValue(double: bool, n: nat): Option<Quantity> {
    var fraction := n % Fractions(double);
    var exponent := n / Fractions(double) % Exponents(double);
    var negative := n / Fractions(double) >= Exponents(double);
    if exponent == Exponents(double) - 1 then
      if fraction != 0 then None else Some(if negative then NegativeInfinity else PositiveInfinity)
    else Some(Directed(negative, Units(double, exponent, fraction)))
  }

  function Directed(negative: bool, units: int): Quantity {
    Finite(if negative then -units else units)
  }

  /** The number a bit pattern encodes. */
  function Value(kind: Kind, n: nat): Option<Quantity> {
    match kind
    case UInt(_, _) => Some(Finite(n))
    case Char => Some(Finite(n))
    case Int(w, _) => Some(Finite(if n < Pow256(w) - n then n else n - Pow256(w)))
    case Float(double) => FloatValue(double, n)
  }

  lemma {:induction false} Pow2Step(a: nat, b: nat)
    requires a < b
    ensures 2 * Pow2(a) <= Pow2(b)
  {
    Pow2Monotone(a + 1, b);
  }

  /** With twice the factor, the smallest number with a leading digit exceeds the greatest before. */
  lemma {:induction false} ScaledApart(k: nat, f: nat, f': nat, p: nat, q: nat)
    requires f < k && 0 < p && 2 * p <= q
    ensures p * (k + f) < q * (k + f')
  {
    StepUp(p, k + f, 2 * k);
    Regroup(p, 2, k);
    Factors(2 * p, q, k);
    Expand(q, k, f');
  }

  lemma {:induction false} Factors(a: nat, b: nat, k: nat)
    requires a <= b
    ensures a * k <= b * k
  {
  }

  /** Units grow with exponent and fraction, read as one number. */
  lemma {:induction false} UnitsGrow(double: bool, e: nat, f: nat, e': nat, f': nat)
    requires f < Fractions(double) && f' < Fractions(double)
    requires e < e' || (e == e' && f < f')
    ensures Units(double, e, f) < Units(double, e', f')
  {
    var k := Fractions(double);
    if e == e' {
      if e > 0 { StepUp(Pow2(e - 1), k + f, k + f'); }
    } else if e > 0 {
      Pow2Step(e - 1, e' - 1);
      ScaledApart(k, f, f', Pow2(e - 1), Pow2(e' - 1));
    } else {
      Factors(1, Pow2(e' - 1), k + f');
    }
  }

  /** Sign, exponent and fraction are the digits of a pattern. */
  lemma {:induction false} FloatFields(double: bool, n: nat)
    ensures var f, e := Fractions(double), Exponents(double);
            && (n / f >= e <==> n >= f * e)
            && n % (f * e) == f * (n / f % e) + n % f && n / f % e < e && n % f < f
  {
    DigitsOf(n, Fractions(double), Exponents(double));
  }

  lemma {:induction false} DigitsOf(n: nat, f: nat, e: nat)
    requires f > 0 && e > 0
    ensures f * e > 0 && n % (f * e) == f * (n / f % e) + n % f && (n / f >= e <==> n >= f * e)
  {
    StepUp(f, 0, e);
    Composed(f, e, n / f, n / f / e, n / f % e, n % f);
    RemainderIs(n, f * e, n / f / e, f * (n / f % e) + n % f);
    Threshold(n, f, e);
  }

  lemma {:induction false} RemainderIs(n: nat, d: nat, q: nat, r: nat)
    requires d > 0 && n == d * q + r && r < d
    ensures n % d == r
  {
    QuotientIs(n, d, q, r);
  }

  lemma {:induction false} Threshold(n: nat, f: nat, e: nat)
    requires f > 0
    ensures n / f >= e <==> n >= f * e
  {
    var q := n / f;
    if q < e {
      StepUp(f, q, e);
    } else if q > e {
      StepUp(f, e, q);
    }
  }

  /** Of two finite magnitudes, the one with the smaller exponent and fraction is the smaller. */
  lemma {:induction false} MagnitudeOrder(double: bool, a: nat, b: nat)
    ensures var f, e := Fractions(double), Exponents(double);
            a % (f * e) <= b % (f * e) <==> Units(double, a / f % e, a % f) <= Units(double, b / f % e, b % f)
  {
    var f, e := Fractions(double), Exponents(double);
    FloatFields(double, a);
    FloatFields(double, b);
    var x, y, p, q := a / f % e, a % f, b / f % e, b % f;
    if x < p || (x == p && y < q) {
      UnitsGrow(double, x, y, p, q);
      FieldsGrow(f, x, y, p, q);
    } else if p < x || (x == p && q < y) {
      UnitsGrow(double, p, q, x, y);
      FieldsGrow(f, p, q, x, y);
    }
  }

  lemma {:induction false} FieldsGrow(f: nat, x: nat, y: nat, p: nat, q: nat)
    requires y < f && q < f && (x < p || (x == p && y < q))
    ensures f * x + y < f * p + q
  {
    if x < p { StepUp(f, x, p); }
  }

  /** Position of a float in its order, by sign, exponent and fraction. */
  lemma {:induction false} FloatRank(double: bool, n: nat)
    ensures var f, e := Fractions(double), Exponents(double); var m := n % (f * e); var kind := Float(double);
            && (Ordered(kind, n) <==> m <= f * (e - 1))
            && (Ordered(kind, n) ==> Rank(kind, n) == Some(if n / f >= e then -m else m))
            && (FloatValue(double, n).Some? <==> Ordered(kind, n))
            && (m == f * (e - 1) <==> n / f % e == e - 1 && n % f == 0)
  {
    FloatFields(double, n);
  }

  /** Floats compare as the numbers they encode; patterns that encode none compare with nothing. */
  lemma {:induction false} FloatOrder(double: bool, a: nat, b: nat)
    ensures Ordered(Float(double), a) <==> FloatValue(double, a).Some?
    ensures Le(Float(double), a, b) <==> NoMore(Float(double), a, b)
    ensures Lt(Float(double), a, b) <==> Less(Float(double), a, b)
  {
    FloatRank(double, a);
    FloatRank(double, b);
    if FloatValue(double, a).Some? && FloatValue(double, b).Some? {
      var s, m, u, s', m', u' := FloatPair(double, a, b);
      Compared(s, m, u, FloatValue(double, a).value, s', m', u', FloatValue(double, b).value, Top(double));
    }
  }

  /** The magnitude of infinities. */
  function Top(double: bool): nat {
    Fractions(double) * (Exponents(double) - 1)
  }

  /** Signs, magnitudes and units of two floats. */
  lemma {:induction false} FloatPair(double: bool, a: nat, b: nat) returns (s: bool, m: nat, u: nat, s': bool, m': nat, u': nat)
    requires FloatValue(double, a).Some? && FloatValue(double, b).Some?
    ensures Signs(FloatValue(double, a).value, s, m, u, Top(double)) && Signs(FloatValue(double, b).value, s', m', u', Top(double))
    ensures Rank(Float(double), a) == Some(if s then 0 - m else m) && Rank(Float(double), b) == Some(if s' then 0 - m' else m')
    ensures (m <= m' <==> u <= u') && (m' <= m <==> u' <= u) && (m == 0 <==> u == 0) && (m' == 0 <==> u' == 0)
  {
    s, m, u := FloatParts(double, a);
    s', m', u' := FloatParts(double, b);
    MagnitudeOrder(double, a, b);
    MagnitudeOrder(double, b, a);
    MagnitudeOrder(double, a, 0);
    MagnitudeOrder(double, b, 0);
  }

  lemma {:induction false} FloatParts(double: bool, n: nat) returns (s: bool, m: nat, u: nat)
    requires FloatValue(double, n).Some?
    ensures var f, e := Fractions(double), Exponents(double); m == n % (f * e) && u == Units(double, n / f % e, n % f)
    ensures Signs(FloatValue(double, n).value, s, m, u, Top(double))
    ensures Rank(Float(double), n) == Some(if s then 0 - m else m)
  {
    var f, e := Fractions(double), Exponents(double);
    FloatRank(double, n);
    s, m, u := n / f >= e, n % (f * e), Units(double, n / f % e, n % f);
  }

  /** `q` is the quantity of a sign and a magnitude, the greatest magnitude being infinite. */
  predicate Signs(q: Quantity, negative: bool, magnitude: nat, units: nat, top: nat) {
    && magnitude <= top
    && q == if magnitude == top then if negative then NegativeInfinity else PositiveInfinity else Directed(negative, units)
  }

  lemma {:induction false} Compared(s: bool, m: nat, u: nat, q: Quantity, s': bool, m': nat, u': nat, q': Quantity, top: nat)
    requires Signs(q, s, m, u, top) && Signs(q', s', m', u', top) && top > 0
    requires (m <= m' <==> u <= u') && (m' <= m <==> u' <= u) && (m == 0 <==> u == 0) && (m' == 0 <==> u' == 0)
    ensures var x, y := if s then 0 - m else m, if s' then 0 - m' else m'; (q.AtMost(q') <==> x <= y) && (q.Below(q') <==> x < y)
  {
  }

  /* ---------------------------------------------------------------- Every kind */

  predicate NoMore(kind: Kind, a: nat, b: nat) {
    Value(kind, a).Some? && Value(kind, b).Some? && Value(kind, a).value.AtMost(Value(kind, b).value)
  }

  predicate Less(kind: Kind, a: nat, b: nat) {
    Value(kind, a).Some? && Value(kind, b).Some? && Value(kind, a).value.Below(Value(kind, b).value)
  }

  /** Patterns of every kind compare as the numbers they encode. */
  lemma {:induction false} OrderIsNumeric(kind: Kind, a: nat, b: nat)
    ensures Ordered(kind, a) <==> Value(kind, a).Some?
    ensures Le(kind, a, b) <==> NoMore(kind, a, b)
    ensures Lt(kind, a, b) <==> Less(kind, a, b)
  {
    if kind.Float? {
      FloatOrder(kind.double, a, b);
    }
  }
}
