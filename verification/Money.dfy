/** Money as Python decimals: canonical printing, the Numeric(15,4) column and
    the amount guard. A Decimal is sign, coefficient and power-of-ten exponent,
    so 45.99 and the column's 45.9900 are different representations of one value. */
module Money {
  import opened Common
  import opened Digits
  import opened Text

  datatype Decimal = Decimal(neg: bool, coeff: nat, exp: int)

  // numeric equality of the magnitudes: both coefficients brought to the smaller exponent
  predicate SameMagnitude(a: Decimal, b: Decimal) {
    var e := Min(a.exp, b.exp);
    a.coeff * Pow10(a.exp - e) == b.coeff * Pow10(b.exp - e)
  }

  predicate SameValue(a: Decimal, b: Decimal) {
    SameMagnitude(a, b) && (a.coeff == 0 || a.neg == b.neg)
  }

  predicate NegativeZero(d: Decimal) {
    d.neg && d.coeff == 0
  }

  // |d| < limit
  predicate Below(d: Decimal, limit: nat) {
    if d.exp >= 0 then d.coeff * Pow10(d.exp) < limit
    else d.coeff < limit * Pow10(-d.exp)
  }

  // Decimal.normalize: no trailing zeros in the coefficient, zero has exponent 0
  function Normalize(d: Decimal): Decimal
    decreases d.coeff
  {
    if d.coeff == 0 then d.(exp := 0)
    else if d.coeff % 10 == 0 then Normalize(Decimal(d.neg, d.coeff / 10, d.exp + 1))
    else d
  }

  // format(d, "f")
  function FixedText(d: Decimal): string {
    (if d.neg then "-" else "") +
    if d.exp >= 0 then NatText(d.coeff * Pow10(d.exp))
    else NatText(Quotient(d.coeff, Pow10(-d.exp))) + ("." + Padded(Remainder(d.coeff, Pow10(-d.exp)), -d.exp))
  }

  function Quotient(c: nat, p: nat): nat
    requires p > 0
  {
    c / p
  }

  function Remainder(c: nat, p: nat): (r: nat)
    requires p > 0
    ensures r < p && Quotient(c, p) * p + r == c
  {
    c % p
  }

  // the serializer of every amount and confidence
  function Canonical(d: Decimal): string {
    FixedText(Normalize(d))
  }

  // the reader's side: the decimal a plain "[-]digits[.digits]" text denotes
  function ParseMagnitude(neg: bool, s: string): Option<Decimal> {
    var p := IndexOf(s, '.');
    var whole := s[..p];
    var frac := if p < |s| then s[p + 1..] else "";
    if AllDigits(whole + frac) then Some(Decimal(neg, NatValue(whole + frac), -|frac|)) else None
  }

  function Parse(s: string): Option<Decimal> {
    if s != "" && s[0] == '-' then ParseMagnitude(true, s[1..]) else ParseMagnitude(false, s)
  }

  // the column stores multiples of 10^-4, rounding half away from zero
  function Units(d: Decimal): nat {
    if d.exp >= -4 then d.coeff * Pow10(d.exp + 4)
    else var p := Pow10(-4 - d.exp); Quotient(2 * d.coeff + p, 2 * p)
  }

  // writing d to the column and reading it back: None is numeric field overflow
  function ThroughColumn(d: Decimal): Option<Decimal> {
    var u := Units(d);
    if u >= Pow10(15) then None else Some(Decimal(d.neg && u != 0, u, -4))
  }

  const MAX_AMOUNT := Pow10(11)

  // apply_result_fields keeps an amount only below this bound
  predicate Admitted(d: Decimal) {
    Below(d, MAX_AMOUNT)
  }

  predicate FourPlaces(d: Decimal) {
    d.exp >= -4 || d.coeff % Pow10(-4 - d.exp) == 0
  }

  predicate TwoPlaces(d: Decimal) {
    d.exp >= -2 || d.coeff % Pow10(-2 - d.exp) == 0
  }

  // int((amount * 100).to_integral_value()): round half to even
  function MinorUnits(d: Decimal): int {
    var m :=
      if d.exp >= -2 then d.coeff * Pow10(d.exp + 2)
      else
        var p := Pow10(-2 - d.exp);
        var q, r := d.coeff / p, d.coeff % p;
        if 2 * r > p || (2 * r == p && q % 2 == 1) then q + 1 else q;
    if d.neg then -m else m
  }

  // ---- normalization -------------------------------------------------------

  lemma TenTimes(c: nat, k: nat)
    requires k > 0
    ensures c * Pow10(k) == 10 * (c * Pow10(k - 1))
  {
    Regroup(10, c, Pow10(k - 1));
  }

  lemma NormalizeTen(neg: bool, x: nat, e: int)
    requires x > 0
    ensures Normalize(Decimal(neg, 10 * x, e)) == Normalize(Decimal(neg, x, e + 1))
  {
  }

  lemma {:induction false} NormalizeScales(neg: bool, c: nat, e: int, k: nat)
    ensures Normalize(Decimal(neg, c * Pow10(k), e - k)) == Normalize(Decimal(neg, c, e))
  {
    if k == 0 || c == 0 {
    } else {
      var x: nat := c * Pow10(k - 1);
      MulAway(c, Pow10(k - 1));
      TenTimes(c, k);
      NormalizeTen(neg, x, e - k);
      NormalizeScales(neg, c, e, k - 1);
    }
  }

  lemma {:induction false} NormalizeFactor(d: Decimal)
    requires d.coeff > 0
    ensures var n := Normalize(d);
            n.neg == d.neg && n.coeff > 0 && n.exp >= d.exp && d.coeff == n.coeff * Pow10(n.exp - d.exp)
    decreases d.coeff
  {
    if d.coeff % 10 != 0 {
    } else {
      var h := Decimal(d.neg, d.coeff / 10, d.exp + 1);
      NormalizeFactor(h);
      var n := Normalize(h);
      assert n.coeff * Pow10(n.exp - d.exp) == 10 * (n.coeff * Pow10(n.exp - h.exp));
    }
  }

  // one value has one normal form, whatever scale it came with
  lemma NormalizeByValue(a: Decimal, b: Decimal)
    ensures SameMagnitude(a, b) <==>
            Normalize(a).coeff == Normalize(b).coeff && Normalize(a).exp == Normalize(b).exp
  {
    if SameMagnitude(a, b) {
      if a.exp >= b.exp {
        NormalizeScales(b.neg, a.coeff, a.exp, a.exp - b.exp);
        NormalizeSign(a, b.neg);
      } else {
        NormalizeScales(a.neg, b.coeff, b.exp, b.exp - a.exp);
        NormalizeSign(b, a.neg);
      }
    } else if Normalize(a).coeff == Normalize(b).coeff && Normalize(a).exp == Normalize(b).exp {
      SharedNormalForm(a, b);
    }
  }

  lemma {:induction false} NormalizeSign(d: Decimal, neg: bool)
    ensures Normalize(d.(neg := neg)) == Normalize(d).(neg := neg)
    ensures Normalize(d).neg == d.neg
    decreases d.coeff
  {
    if d.coeff == 0 || d.coeff % 10 != 0 {
    } else {
      NormalizeSign(Decimal(d.neg, d.coeff / 10, d.exp + 1), neg);
    }
  }

  lemma SharedNormalForm(a: Decimal, b: Decimal)
    requires Normalize(a).coeff == Normalize(b).coeff && Normalize(a).exp == Normalize(b).exp
    ensures SameMagnitude(a, b)
  {
    if a.coeff > 0 {
      NormalizeFactor(a);
    }
    if b.coeff > 0 {
      NormalizeFactor(b);
    }
    if a.coeff > 0 && b.coeff > 0 {
      var n := Normalize(a);
      var e := Min(a.exp, b.exp);
      Pow10Add(n.exp - a.exp, a.exp - e);
      Pow10Add(n.exp - b.exp, b.exp - e);
      Regroup(n.coeff, Pow10(n.exp - a.exp), Pow10(a.exp - e));
      Regroup(n.coeff, Pow10(n.exp - b.exp), Pow10(b.exp - e));
    }
  }

  lemma Regroup(x: nat, y: nat, z: nat)
    ensures (x * y) * z == x * (y * z)
  {
  }

  // the normal form with the sign of zero dropped
  function NormalForm(d: Decimal): Decimal {
    var n := Normalize(d);
    n.(neg := n.neg && n.coeff != 0)
  }

  lemma SameValueByNormalForm(a: Decimal, b: Decimal)
    ensures SameValue(a, b) <==> NormalForm(a) == NormalForm(b)
  {
    NormalizeByValue(a, b);
    NormalizeSign(a, a.neg);
    NormalizeSign(b, b.neg);
    if a.coeff > 0 {
      NormalizeFactor(a);
    }
    if b.coeff > 0 {
      NormalizeFactor(b);
    }
  }

  // ---- printing ------------------------------------------------------------

  lemma WholeText(neg: bool, n: nat)
    ensures ParseMagnitude(neg, NatText(n)) == Some(Decimal(neg, n, 0))
  {
    var w := NatText(n);
    IndexOfFirst(w, '.', "");
    assert w + "" == w && w[..|w|] == w;
    NatTextInverse(n);
  }

  // the unsigned text of a magnitude with an exponent at or above zero, or below it
  lemma WholeInverse(d: Decimal)
    requires d.exp >= 0
    ensures var body := FixedText(d.(neg := false));
            AllDigits(body) && body != "" &&
            ParseMagnitude(d.neg, body) == Some(Decimal(d.neg, d.coeff * Pow10(d.exp), 0))
  {
    var n: nat := d.coeff * Pow10(d.exp);
    WholeText(d.neg, n);
    assert "" + NatText(n) == NatText(n);
  }

  lemma AtThePoint(w: string, f: string)
    requires AllDigits(w)
    ensures var body := w + ("." + f);
            IndexOf(body, '.') == |w| < |body| && body[..|w|] == w && body[|w| + 1..] == f
  {
    IndexOfFirst(w, '.', "." + f);
  }

  lemma PointedText(neg: bool, w: string, f: string)
    requires AllDigits(w) && AllDigits(f)
    ensures AllDigits(w + f) && ParseMagnitude(neg, w + ("." + f)) == Some(Decimal(neg, NatValue(w + f), -|f|))
  {
    AtThePoint(w, f);
  }

  lemma PartsInverse(d: Decimal, q: nat, r: nat, k: nat)
    requires k > 0 && r < Pow10(k) && d.exp + k == 0 && q * Pow10(k) + r == d.coeff
    ensures var body := NatText(q) + ("." + Padded(r, k));
            body != "" && IsDigit(body[0]) && ParseMagnitude(d.neg, body) == Some(d)
  {
    var w, f := NatText(q), Padded(r, k);
    PointedText(d.neg, w, f);
    NatTextInverse(q);
    PaddedInverse(r, k);
    NatValueConcat(w, f);
  }

  lemma FractionInverse(d: Decimal)
    requires d.exp < 0
    ensures var body := FixedText(d.(neg := false));
            body != "" && IsDigit(body[0]) && ParseMagnitude(d.neg, body) == Some(d)
  {
    FractionShape(d.(neg := false));
    var p := Pow10(-d.exp);
    PartsInverse(d, Quotient(d.coeff, p), Remainder(d.coeff, p), -d.exp);
  }

  lemma FractionShape(d: Decimal)
    requires d.exp < 0 && !d.neg
    ensures FixedText(d) ==
            NatText(Quotient(d.coeff, Pow10(-d.exp))) + ("." + Padded(Remainder(d.coeff, Pow10(-d.exp)), -d.exp))
  {
    var body := NatText(Quotient(d.coeff, Pow10(-d.exp))) + ("." + Padded(Remainder(d.coeff, Pow10(-d.exp)), -d.exp));
    assert "" + body == body;
  }

  lemma FixedTextInverse(d: Decimal)
    ensures Parse(FixedText(d)).Some?
    ensures var p := Parse(FixedText(d)).value; p.neg == d.neg && SameMagnitude(p, d)
  {
    var body := FixedText(d.(neg := false));
    assert FixedText(d) == if d.neg then "-" + body else body;
    if d.neg {
      assert FixedText(d)[1..] == body;
    }
    if d.exp >= 0 {
      WholeInverse(d);
    } else {
      FractionInverse(d);
    }
  }

  lemma CanonicalInverse(d: Decimal)
    ensures Parse(Canonical(d)).Some?
    ensures var p := Parse(Canonical(d)).value; p.neg == d.neg && SameMagnitude(p, d)
  {
    var n := Normalize(d);
    FixedTextInverse(n);
    NormalizeSign(d, d.neg);
    NormalizeByValue(Parse(FixedText(n)).value, n);
    NormalizeIdempotent(d);
    NormalizeByValue(Parse(FixedText(n)).value, d);
  }

  lemma {:induction false} NormalizeIdempotent(d: Decimal)
    ensures Normalize(Normalize(d)) == Normalize(d)
    decreases d.coeff
  {
    if d.coeff == 0 || d.coeff % 10 != 0 {
    } else {
      NormalizeIdempotent(Decimal(d.neg, d.coeff / 10, d.exp + 1));
    }
  }

  /** Two amounts print alike exactly when they are the same number; the one
      exception is a signed zero, which keeps its sign. */
  lemma CanonicalByValue(a: Decimal, b: Decimal)
    ensures Canonical(a) == Canonical(b) <==>
            SameValue(a, b) && NegativeZero(a) == NegativeZero(b)
  {
    NormalizeByValue(a, b);
    NormalizeSign(a, a.neg);
    NormalizeSign(b, b.neg);
    if Canonical(a) == Canonical(b) {
      CanonicalInverse(a);
      CanonicalInverse(b);
      var p := Parse(Canonical(a)).value;
      NormalizeByValue(p, a);
      NormalizeByValue(p, b);
    }
  }

  // ---- the Numeric(15, 4) column --------------------------------------------

  lemma RoundExact(q: nat, p: nat)
    requires p > 0
    ensures (2 * (q * p) + p) / (2 * p) == q
  {
    assert 2 * (q * p) + p == q * (2 * p) + p;
    DivideBack(q, p, 2 * p);
  }

  lemma DivideBack(q: nat, r: nat, m: nat)
    requires r < m
    ensures (q * m + r) / m == q
  {
    var x := q * m + r;
    var k := Quotient(x, m) - q;
    assert k * m == r - Remainder(x, m);
    MulAway(k, m);
  }

  lemma MulAway(k: int, m: nat)
    ensures k >= 1 ==> k * m >= m
    ensures k <= -1 ==> k * m <= -1 * m
  {
  }

  lemma MulMonotone(x: nat, y: nat, z: nat)
    ensures x <= y ==> x * z <= y * z
  {
  }

  lemma MultipleDivides(q: nat, p: nat)
    requires p > 0
    ensures (q * p) % p == 0
  {
    DivideBack(q, 0, p);
    assert Quotient(q * p, p) * p + Remainder(q * p, p) == q * p;
  }

  // on values with at most four decimals the column keeps the number
  lemma UnitsExact(d: Decimal)
    requires FourPlaces(d)
    ensures SameMagnitude(Decimal(false, Units(d), -4), d)
    ensures Units(d) == 0 <==> d.coeff == 0
  {
    if d.exp >= -4 {
      if d.coeff > 0 {
        assert d.coeff * Pow10(d.exp + 4) > 0;
      }
    } else {
      var p := Pow10(-4 - d.exp);
      var q := Quotient(d.coeff, p);
      assert Remainder(d.coeff, p) == 0;
      RoundExact(q, p);
    }
  }

  lemma ColumnFits(d: Decimal, n: nat)
    requires FourPlaces(d) && Below(d, Pow10(n))
    ensures Units(d) < Pow10(n + 4)
  {
    Pow10Add(n, 4);
    if d.exp >= 0 {
      Pow10Add(d.exp, 4);
      Regroup(d.coeff, Pow10(d.exp), Pow10(4));
      Widen(d.coeff * Pow10(d.exp), Pow10(n), Pow10(4));
    } else if d.exp >= -4 {
      Pow10Add(-d.exp, d.exp + 4);
      Widen(d.coeff, Pow10(n) * Pow10(-d.exp), Pow10(d.exp + 4));
      Regroup(Pow10(n), Pow10(-d.exp), Pow10(d.exp + 4));
    } else {
      ColumnFitsFine(d, n, Pow10(-4 - d.exp));
    }
  }

  lemma ColumnFitsFine(d: Decimal, n: nat, p: nat)
    requires d.exp < -4 && p == Pow10(-4 - d.exp) && d.coeff % p == 0 && Below(d, Pow10(n))
    ensures Units(d) < Pow10(n + 4)
  {
    Pow10Add(n, 4);
    Pow10Add(4, -4 - d.exp);
    Regroup(Pow10(n), Pow10(4), p);
    var q := Quotient(d.coeff, p);
    assert Remainder(d.coeff, p) == 0;
    RoundExact(q, p);
    Narrow(q, Pow10(n + 4), p);
  }

  lemma Widen(x: nat, y: nat, z: nat)
    requires x < y && z > 0
    ensures x * z < y * z
  {
  }

  lemma Narrow(x: nat, y: nat, z: nat)
    requires x * z < y * z
    ensures x < y
  {
    MulMonotone(y, x, z);
  }

  /** The webhook event prints the pipeline's decimal, the detail view prints the
      one read back from the column. For every amount the guard admits the two
      texts agree exactly when the amount has at most four decimals and is not a
      negative zero. */
  lemma EventMatchesDetail(d: Decimal)
    requires Admitted(d)
    ensures (ThroughColumn(d).Some? && Canonical(ThroughColumn(d).value) == Canonical(d)) <==>
            FourPlaces(d) && !NegativeZero(d)
  {
    var u := Units(d);
    var back := Decimal(d.neg && u != 0, u, -4);
    CanonicalByValue(back, d);
    if FourPlaces(d) {
      UnitsExact(d);
      ColumnFits(d, 11);
    } else {
      var p := Pow10(-4 - d.exp);
      MultipleDivides(u, p);
    }
  }

  lemma QuotientAtLeast(x: nat, m: nat, t: nat)
    requires m > 0
    ensures Quotient(x, m) >= t <==> x >= t * m
  {
    var q := Quotient(x, m);
    MulMonotone(t, q, m);
    MulMonotone(q + 1, t, m);
    assert (q + 1) * m == q * m + m;
  }

  lemma HalfUp(c: nat, p: nat, t: nat)
    requires p > 0
    ensures Quotient(2 * c + p, 2 * p) >= t <==> 2 * c + p >= 2 * (t * p)
  {
    QuotientAtLeast(2 * c + p, 2 * p, t);
    Regroup(t, 2, p);
    Regroup(2, t, p);
  }

  /** The guard and the column: an amount the guard admits overflows the column exactly
      when it has more than four decimals and rounds up to the bound, that is, when it
      is at least 10^11 - 0.00005. */
  lemma OverflowsExactly(d: Decimal)
    requires Admitted(d)
    ensures ThroughColumn(d).None? <==>
            d.exp < -4 && 2 * d.coeff + Pow10(-4 - d.exp) >= 2 * (Pow10(15) * Pow10(-4 - d.exp))
  {
    if d.exp >= -4 {
      ColumnFits(d, 11);
    } else {
      HalfUp(d.coeff, Pow10(-4 - d.exp), Pow10(15));
    }
  }

  lemma TwoPlacesAreFour(d: Decimal)
    requires TwoPlaces(d)
    ensures FourPlaces(d)
  {
    if d.exp < -4 {
      var p := Pow10(-4 - d.exp);
      var q := Quotient(d.coeff, Pow10(-2 - d.exp));
      Pow10Add(2, -4 - d.exp);
      assert Remainder(d.coeff, Pow10(-2 - d.exp)) == 0;
      Regroup(q, Pow10(2), p);
      MultipleDivides(q * Pow10(2), p);
    }
  }

  /** What the extractors read, unsigned amounts of at most two decimals, always fits
      the column below the guard, and prints alike before and after it. */
  lemma ExtractedAmountsAgree(d: Decimal)
    requires Admitted(d) && TwoPlaces(d) && !d.neg
    ensures ThroughColumn(d).Some? && Canonical(ThroughColumn(d).value) == Canonical(d)
  {
    TwoPlacesAreFour(d);
    EventMatchesDetail(d);
  }

  // ---- minor units -----------------------------------------------------------

  lemma MinorUnitsExact(d: Decimal)
    requires TwoPlaces(d)
    ensures var m := MinorUnits(d);
            SameValue(Decimal(m < 0, if m < 0 then -m else m, -2), d)
  {
    if d.exp >= -2 {
      if d.coeff > 0 {
        assert d.coeff * Pow10(d.exp + 2) > 0;
      }
    } else {
      var p := Pow10(-2 - d.exp);
      assert Quotient(d.coeff, p) * p + Remainder(d.coeff, p) == d.coeff;
    }
  }

  /** Below a cent the minor units are the nearest ones, and of two as near the even ones. */
  lemma MinorUnitsNearest(d: Decimal, p: nat)
    requires d.exp < -2 && p == Pow10(-2 - d.exp)
    ensures var m := MinorUnits(d); var u := if m < 0 then -m else m;
            && (m != 0 ==> (m < 0 <==> d.neg))
            && 2 * u * p <= 2 * d.coeff + p && 2 * d.coeff <= 2 * u * p + p
            && (2 * u * p == 2 * d.coeff + p || 2 * d.coeff == 2 * u * p + p ==> u % 2 == 0)
  {
    NearestEven(d.coeff, p, Quotient(d.coeff, p), Remainder(d.coeff, p));
  }

  lemma NearestEven(c: nat, p: nat, q: nat, r: nat)
    requires p > 0 && r < p && q * p + r == c
    ensures var u := if 2 * r > p || (2 * r == p && q % 2 == 1) then q + 1 else q;
            && 2 * u * p <= 2 * c + p && 2 * c <= 2 * u * p + p
            && (2 * u * p == 2 * c + p || 2 * c == 2 * u * p + p ==> u % 2 == 0)
  {
    assert (q + 1) * p == q * p + p;
  }

  lemma MinorUnitsByValue(a: Decimal, b: Decimal)
    requires TwoPlaces(a) && TwoPlaces(b)
    ensures MinorUnits(a) == MinorUnits(b) <==> SameValue(a, b)
  {
    MinorUnitsExact(a);
    MinorUnitsExact(b);
    var m, n := MinorUnits(a), MinorUnits(b);
    var c := Decimal(m < 0, if m < 0 then -m else m, -2);
    var e := Decimal(n < 0, if n < 0 then -n else n, -2);
    SameValueByNormalForm(c, a);
    SameValueByNormalForm(e, b);
    SameValueByNormalForm(a, b);
    SameValueByNormalForm(c, e);
    if SameValue(a, b) {
      CentsDistinct(c, e);
    }
  }

  lemma MinorUnitsOfCents(m: int)
    ensures var cents := Decimal(m < 0, if m < 0 then -m else m, -2); TwoPlaces(cents) && MinorUnits(cents) == m
  {
    assert Pow10(0) == 1;
  }

  // only amounts of whole cents have the value of their minor units
  lemma WholeCents(d: Decimal)
    ensures var m := MinorUnits(d);
            SameValue(Decimal(m < 0, if m < 0 then -m else m, -2), d) <==> TwoPlaces(d)
  {
    var m := MinorUnits(d);
    var u := if m < 0 then -m else m;
    if TwoPlaces(d) {
      MinorUnitsExact(d);
    } else {
      var p := Pow10(-2 - d.exp);
      MultipleDivides(u, p);
      assert Pow10(0) == 1;
    }
  }

  lemma CentsDistinct(c: Decimal, e: Decimal)
    requires c.exp == e.exp && SameMagnitude(c, e)
    ensures c.coeff == e.coeff
  {
  }
}
