/** The pure pipeline from what the parsers read in a mail to a result: routing,
    the currency fill and the fingerprint. */
module Pipeline {
  import opened Common
  import opened Schema
  import Fingerprint
  import Money

  datatype Route = ToReview | ToFailed | NotFinancial | VerificationMail

  // what the parsers, the sender registry and the merchant rules say about one mail
  datatype Reading = Reading(
    verification: bool, financial: bool,
    amount: Option<Money.Decimal>, currency: Option<string>, merchantRaw: Option<string>,
    date: Option<Fingerprint.Date>, card: Option<string>,
    normalized: Option<string>, suggestion: Option<string>,
    defaultCurrency: string, highScore: bool)

  datatype Result = Result(route: Route, fields: Fields, fingerprint: Option<string>)

  const NO_FIELDS := Fields(None, None, None, None, None, None, None, NotApplicable)

  // a merchant name counts only when it is there and not empty
  function Truthy(s: Option<string>): Option<string> {
    if s == Some("") then None else s
  }

  function FingerprintOf(f: Fields): Option<string> {
    if f.amount.Some? && f.date.Some? && Truthy(f.merchant).Some?
    then Some(Fingerprint.Of(f.amount.value, f.currency.GetOr("USD"), f.merchant.value, f.date.value))
    else None
  }

  function Run(r: Reading): (res: Result)
    ensures res.route == ToReview ==> res.fields.amount.Some?
    ensures res.route == ToFailed ==> res.fields.amount.None? && res.fingerprint.None?
    ensures res.fields.amount.Some? ==> res.fields.currency.Some?
    ensures res.fingerprint.Some? <==> FingerprintOf(res.fields).Some?
  {
    if r.verification then Result(VerificationMail, NO_FIELDS, None)
    else if !r.financial then Result(NotFinancial, NO_FIELDS, None)
    else
      var currency := if r.amount.Some? && r.currency.None? then Some(r.defaultCurrency) else r.currency;
      var known := Truthy(r.merchantRaw).Some?;
      var merchant := if known then Truthy(r.normalized) else None;
      var suggestion := if known then r.suggestion else None;
      var complete := r.amount.Some? && r.merchantRaw.Some? && r.date.Some?;
      var band := if r.amount.None? then NotApplicable else if complete && r.highScore then High else Low;
      var f := Fields(r.amount, currency, r.merchantRaw, merchant, suggestion, r.date, r.card, band);
      Result(if r.amount.None? then ToFailed else ToReview, f, FingerprintOf(f))
  }

  // ---- the program's order of work ----------------------------------------------------

  // the dictionary of fields a parser fills; an absent key is None
  datatype Found = Found(
    amount: Option<Money.Decimal>, currency: Option<string>, merchant: Option<string>,
    date: Option<Fingerprint.Date>, card: Option<string>)

  const NOTHING_FOUND := Found(None, None, None, None, None)

  function Over<T>(later: Option<T>, earlier: Option<T>): Option<T> {
    if later.Some? then later else earlier
  }

  // dict.update
  function Updated(fields: Found, more: Found): Found {
    Found(Over(more.amount, fields.amount), Over(more.currency, fields.currency), Over(more.merchant, fields.merchant),
          Over(more.date, fields.date), Over(more.card, fields.card))
  }

  // the reading two parsers add up to: what the sender's template found wins
  function Combined(verification: bool, financial: bool, general: Found,
                    template: Found, senderCurrency: Option<string>,
                    normalized: Option<string>, suggestion: Option<string>, highScore: bool): Reading
  {
    var f := Updated(general, template);
    Reading(verification, financial, f.amount, f.currency, f.merchant, f.date, f.card, normalized, suggestion,
            if Truthy(senderCurrency).Some? then senderCurrency.value else "USD", highScore)
  }

  /** What the sender's template found beats the general patterns, field by field; only an
      amount without any currency gets the sender's default, or else dollars. The band is
      high exactly when amount, merchant and date were found and the score is high. */
  lemma TemplateWins(general: Found, template: Found, senderCurrency: Option<string>,
                     normalized: Option<string>, suggestion: Option<string>, highScore: bool)
    ensures var res := Run(Combined(false, true, general, template, senderCurrency, normalized, suggestion, highScore));
            var f := res.fields;
            && (res.route == ToReview <==> template.amount.Some? || general.amount.Some?)
            && f.amount == (if template.amount.Some? then template.amount else general.amount)
            && f.merchantRaw == (if template.merchant.Some? then template.merchant else general.merchant)
            && f.date == (if template.date.Some? then template.date else general.date)
            && f.card == (if template.card.Some? then template.card else general.card)
            && (template.currency.Some? ==> f.currency == template.currency)
            && (template.currency.None? && general.currency.Some? ==> f.currency == general.currency)
            && (f.band == High <==> f.amount.Some? && f.merchantRaw.Some? && f.date.Some? && highScore)
            && (f.band == NotApplicable <==> f.amount.None?)
            && (template.currency.None? && general.currency.None? ==>
                  res.fields.currency ==
                    if res.fields.amount.None? then None
                    else if Truthy(senderCurrency).Some? then senderCurrency else Some("USD"))
  {
  }

  // the field dictionary: general patterns, then the sender's template, then the currency
  method FillFields(general: Found, template: Found, senderCurrency: Option<string>) returns (fields: Found)
    ensures var f := Updated(general, template);
            fields == if f.amount.Some? && f.currency.None?
                      then f.(currency := Some(if Truthy(senderCurrency).Some? then senderCurrency.value else "USD"))
                      else f
  {
    fields := NOTHING_FOUND;
    fields := Updated(fields, general);
    fields := Updated(fields, template);
    if fields.amount.Some? && fields.currency.None? {
      var currency := if Truthy(senderCurrency).Some? then senderCurrency.value else "USD";
      fields := fields.(currency := Some(currency));
    }
  }

  method RunPipeline(verification: bool, financial: bool, general: Found,
                     template: Found, senderCurrency: Option<string>,
                     normalized: Option<string>, suggestion: Option<string>, highScore: bool) returns (res: Result)
    ensures res
                  == Run(Combined(verification, financial, general, template, senderCurrency,
                             normalized, suggestion, highScore))
  {
    if verification {
      return Result(VerificationMail, NO_FIELDS, None);
    }
    if !financial {
      return Result(NotFinancial, NO_FIELDS, None);
    }
    var fields := FillFields(general, template, senderCurrency);
    var merchant, category: Option<string> := None, None;
    if Truthy(fields.merchant).Some? {
      merchant, category := Truthy(normalized), suggestion;
    }
    var route, band := ToFailed, NotApplicable;
    if fields.amount.Some? {
      var complete := fields.merchant.Some? && fields.date.Some?;
      route := ToReview;
      band := if complete && highScore then High else Low;
    }
    var all := Fields(fields.amount, fields.currency, fields.merchant, merchant, category, fields.date,
                       fields.card, band);
    return Result(route, all, FingerprintOf(all));
  }
}
