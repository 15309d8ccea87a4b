/** The duplicate fingerprint: SHA-256 over "minor|currency|merchant|date". The
    hash is taken as injective, so a fingerprint is represented by its basis text. */
module Fingerprint {
  import opened Common
  import opened Digits
  import opened Text
  import Money

  datatype Date = Date(year: nat, month: nat, day: nat)

  // what a Python date guarantees
  predicate IsDate(d: Date) {
    1 <= d.year <= 9999 && 1 <= d.month <= 12 && 1 <= d.day <= 31
  }

  // date.isoformat(): always ten characters
  function Iso(d: Date): (s: string)
    ensures |s| == 10
  {
    Padded(d.year, 4) + "-" + Padded(d.month, 2) + "-" + Padded(d.day, 2)
  }

  function IntText(n: int): string {
    if n < 0 then "-" + NatText(-n) else NatText(n)
  }

  function Basis(minor: int, currency: string, merchant: string, date: Date): string {
    IntText(minor) + ("|" + (currency + ("|" + (merchant + ("|" + Iso(date))))))
  }

  // pipeline._fingerprint on an amount, a currency, a normalized merchant and a date
  function Of(amount: Money.Decimal, currency: string, merchant: string, date: Date): string {
    Basis(Money.MinorUnits(amount), currency, Lower(merchant), date)
  }

  // ---- reading a basis back: two fields from the left, the date from the right

  datatype Parts = Parts(minor: int, currency: string, merchant: string, date: Date)

  function IntValue(s: string): Option<int> {
    if s != "" && s[0] == '-' then
      if AllDigits(s[1..]) then Some(0 - NatValue(s[1..])) else None
    else if AllDigits(s) then Some(NatValue(s))
    else None
  }

  function IsoValue(s: string): Option<Date>
    requires |s| == 10
  {
    if AllDigits(s[..4]) && AllDigits(s[5..7]) && AllDigits(s[8..]) then
      Some(Date(NatValue(s[..4]), NatValue(s[5..7]), NatValue(s[8..])))
    else None
  }

  function Decode(s: string): Option<Parts> {
    var i := IndexOf(s, '|');
    if i == |s| then None else DecodeRest(s[..i], s[i + 1..])
  }

  function DecodeRest(minor: string, rest: string): Option<Parts> {
    var j := IndexOf(rest, '|');
    if j == |rest| then None else DecodeTail(minor, rest[..j], rest[j + 1..])
  }

  function DecodeTail(minor: string, currency: string, tail: string): Option<Parts> {
    var cut := |tail| - 11;
    if cut < 0 then None else Interpret(minor, currency, tail[..cut], tail[cut + 1..])
  }

  function Interpret(minor: string, currency: string, merchant: string, iso: string): Option<Parts>
    requires |iso| == 10
  {
    match (IntValue(minor), IsoValue(iso))
    case (Some(n), Some(date)) => Some(Parts(n, currency, merchant, date))
    case _ => None
  }

  lemma IntTextInverse(n: int)
    ensures IntValue(IntText(n)) == Some(n)
    ensures '|' !in IntText(n)
  {
    var m := if n < 0 then -n else n;
    NatTextInverse(m);
    assert forall k :: 0 <= k < |NatText(m)| ==> IsDigit(NatText(m)[k]);
    if n < 0 {
      assert IntText(n)[1..] == NatText(m);
    } else {
      assert IsDigit(IntText(n)[0]);
    }
  }

  lemma IsoInverse(d: Date)
    requires IsDate(d)
    ensures IsoValue(Iso(d)) == Some(d)
  {
    var y, m, n := Padded(d.year, 4), Padded(d.month, 2), Padded(d.day, 2);
    var s := Iso(d);
    assert s == y + "-" + m + "-" + n;
    assert s[..4] == y && s[5..7] == m && s[8..] == n;
    assert Pow10(4) == 10000 && Pow10(2) == 100;
    PaddedInverse(d.year, 4);
    PaddedInverse(d.month, 2);
    PaddedInverse(d.day, 2);
  }

  lemma FieldAndRest(field: string, rest: string)
    requires '|' !in field
    ensures var s := field + ("|" + rest);
            IndexOf(s, '|') == |field| < |s| && s[..|field|] == field && s[|field| + 1..] == rest
  {
    IndexOfFirst(field, '|', "|" + rest);
  }

  lemma MerchantAndDate(minor: string, currency: string, merchant: string, iso: string)
    requires |iso| == 10
    ensures DecodeTail(minor, currency, merchant + ("|" + iso)) == Interpret(minor, currency, merchant, iso)
  {
    var tail := merchant + ("|" + iso);
    assert tail[..|merchant|] == merchant && tail[|merchant| + 1..] == iso;
  }

  // where the four fields of a basis lie, whatever they say
  lemma Layout(head: string, currency: string, merchant: string, iso: string)
    requires '|' !in head && '|' !in currency && |iso| == 10
    ensures Decode(head + ("|" + (currency + ("|" + (merchant + ("|" + iso))))))
            == Interpret(head, currency, merchant, iso)
  {
    var tail := merchant + ("|" + iso);
    var rest := currency + ("|" + tail);
    FieldAndRest(head, rest);
    FieldAndRest(currency, tail);
    MerchantAndDate(head, currency, merchant, iso);
  }

  /** The basis text is unambiguous although the merchant may contain the
      delimiter: only the currency must not. */
  lemma DecodeBasis(minor: int, currency: string, merchant: string, date: Date)
    requires '|' !in currency && IsDate(date)
    ensures Decode(Basis(minor, currency, merchant, date)) == Some(Parts(minor, currency, merchant, date))
  {
    IntTextInverse(minor);
    IsoInverse(date);
    Layout(IntText(minor), currency, merchant, Iso(date));
  }

  /** Equal fingerprints mean the same amount, currency, lower-cased merchant and day. */
  lemma SameFingerprint(a: Money.Decimal, c: string, m: string, d: Date,
                        a': Money.Decimal, c': string, m': string, d': Date)
    requires '|' !in c && '|' !in c' && IsDate(d) && IsDate(d')
    requires Money.TwoPlaces(a) && Money.TwoPlaces(a')
    ensures Of(a, c, m, d) == Of(a', c', m', d') <==>
            Money.SameValue(a, a') && c == c' && Lower(m) == Lower(m') && d == d'
  {
    DecodeBasis(Money.MinorUnits(a), c, Lower(m), d);
    DecodeBasis(Money.MinorUnits(a'), c', Lower(m'), d');
    Money.MinorUnitsByValue(a, a');
  }

  // ---- exactly what a fingerprint tells apart ----------------------------------------------

  // the currency and the merchant as they stand in the text
  function Middle(currency: string, merchant: string): string {
    currency + ("|" + merchant)
  }

  lemma MiddleApart(c: string, m: string, c': string, m': string)
    requires '|' !in c && '|' !in c'
    ensures Middle(c, m) == Middle(c', m') <==> c == c' && m == m'
  {
    FieldAndRest(c, m);
    FieldAndRest(c', m');
  }

  lemma DateApart(x: string, iso: string, x': string, iso': string)
    requires |iso| == |iso'| == 10
    ensures Middle(x, iso) == Middle(x', iso') <==> x == x' && iso == iso'
  {
    var s, s' := Middle(x, iso), Middle(x', iso');
    assert s[..|s| - 11] == x && s[|s| - 10..] == iso;
    assert s'[..|s'| - 11] == x' && s'[|s'| - 10..] == iso';
  }

  lemma Nested(minor: string, c: string, m: string, iso: string)
    ensures minor + ("|" + (c + ("|" + (m + ("|" + iso))))) == Middle(minor, Middle(Middle(c, m), iso))
  {
    assert c + ("|" + (m + ("|" + iso))) == Middle(Middle(c, m), iso);
  }

  lemma TextsApart(minor: int, minor': int, d: Date, d': Date)
    requires IsDate(d) && IsDate(d')
    ensures IntText(minor) == IntText(minor') <==> minor == minor'
    ensures Iso(d) == Iso(d') <==> d == d'
  {
    IntTextInverse(minor);
    IntTextInverse(minor');
    IsoInverse(d);
    IsoInverse(d');
  }

  /** Two basis texts are equal, whatever the fields hold, exactly when amount and date
      are equal and currency and merchant make the same text. */
  lemma SameBasis(minor: int, c: string, m: string, d: Date, minor': int, c': string, m': string, d': Date)
    requires IsDate(d) && IsDate(d')
    ensures Basis(minor, c, m, d) == Basis(minor', c', m', d') <==>
            minor == minor' && Middle(c, m) == Middle(c', m') && d == d'
  {
    IntTextInverse(minor);
    IntTextInverse(minor');
    Nested(IntText(minor), c, m, Iso(d));
    Nested(IntText(minor'), c', m', Iso(d'));
    MiddleApart(IntText(minor), Middle(Middle(c, m), Iso(d)), IntText(minor'), Middle(Middle(c', m'), Iso(d')));
    DateApart(Middle(c, m), Iso(d), Middle(c', m'), Iso(d'));
    TextsApart(minor, minor', d, d');
  }

  /** For all amounts: equal fingerprints mean equal minor units, currency, lower-cased
      merchant and day. */
  lemma SameFields(a: Money.Decimal, c: string, m: string, d: Date,
                   a': Money.Decimal, c': string, m': string, d': Date)
    requires '|' !in c && '|' !in c' && IsDate(d) && IsDate(d')
    ensures Of(a, c, m, d) == Of(a', c', m', d') <==>
            Money.MinorUnits(a) == Money.MinorUnits(a') && c == c' && Lower(m) == Lower(m') && d == d'
  {
    SameBasis(Money.MinorUnits(a), c, Lower(m), d, Money.MinorUnits(a'), c', Lower(m'), d');
    MiddleApart(c, Lower(m), c', Lower(m'));
  }

  /** A currency can be confused with a proper one exactly when it holds the delimiter. */
  lemma DelimiterInCurrencyCollides(minor: int, currency: string, date: Date)
    requires IsDate(date)
    ensures (exists c, m, m' :: c != currency && '|' !in c
                   && Basis(minor, currency, m, date) == Basis(minor, c, m', date))
        <==> '|' in currency
  {
    if '|' in currency {
      var i := IndexOf(currency, '|');
      var c, m' := currency[..i], currency[i + 1..] + ("|" + "");
      assert '|' !in c;
      assert Middle(currency, "") == Middle(c, m');
      SameBasis(minor, currency, "", date, minor, c, m', date);
    } else {
      forall c, m, m' | c != currency && '|' !in c
        ensures Basis(minor, currency, m, date) != Basis(minor, c, m', date) {
        SameBasis(minor, currency, m, date, minor, c, m', date);
        MiddleApart(currency, m, c, m');
      }
    }
  }

  /** An amount shares its fingerprint with a different amount of whole cents exactly
      when it is not whole cents itself. */
  lemma SubCentCollides(a: Money.Decimal, currency: string, merchant: string, date: Date)
    requires '|' !in currency && IsDate(date)
    ensures (exists b :: Money.TwoPlaces(b) && !Money.SameValue(b, a) &&
                         Of(b, currency, merchant, date) == Of(a, currency, merchant, date))
        <==> !Money.TwoPlaces(a)
  {
    if Money.TwoPlaces(a) {
      forall b | Money.TwoPlaces(b) && Of(b, currency, merchant, date) == Of(a, currency, merchant, date)
        ensures Money.SameValue(b, a)
      {
        SameFields(b, currency, merchant, date, a, currency, merchant, date);
        Money.MinorUnitsByValue(b, a);
      }
    } else {
      var m := Money.MinorUnits(a);
      var b := Money.Decimal(m < 0, if m < 0 then -m else m, -2);
      Money.MinorUnitsOfCents(m);
      Money.WholeCents(a);
      SameFields(b, currency, merchant, date, a, currency, merchant, date);
    }
  }
}
