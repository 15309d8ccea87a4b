/** What is written of what was read: the columns of a new mail, and the columns of a new or
    reprocessed row, in terms of the message and of the parsers' findings. */
module Readings {
  import opened Common
  import opened Schema
  import opened Pipeline
  import opened Ingest
  import opened World
  import opened Frames
  import Digits
  import Fingerprint
  import Money
  import Review
  import ReviewRuns

  // |d| < 10^11, on the coefficient brought to an exponent of at most 0
  predicate InRange(d: Money.Decimal) {
    if d.exp >= 0 then d.coeff * Digits.Pow10(d.exp) < 100000000000
    else d.coeff < 100000000000 * Digits.Pow10(-d.exp)
  }

  // the row says what was read; an amount out of range is dropped, and with it the review
  predicate RowSays(row: Extraction, r: Reading) {
    var amount := if r.amount.Some? && InRange(r.amount.value) then r.amount else None;
    var named := r.merchantRaw.Some? && r.merchantRaw.value != "";
    var f := row.fields;
    && f.amount == amount && f.date == r.date && f.card == r.card && f.merchantRaw == r.merchantRaw
    && f.currency == (if r.currency.Some? then r.currency else if r.amount.Some? then Some(r.defaultCurrency) else None)
    && f.merchant == (if named && r.normalized != Some("") then r.normalized else None)
    && f.suggestion == (if named then r.suggestion else None)
    && (f.band == NotApplicable <==> r.amount.None?)
    && (f.band == High <==> r.amount.Some? && r.merchantRaw.Some? && r.date.Some? && r.highScore)
    && row.status == (if amount.Some? then Pending else ExtractionFailed)
    && row.fingerprint ==
         if amount.Some? && f.date.Some? && f.merchant.Some?
         then Some(Fingerprint.Of(amount.value, f.currency.value, f.merchant.value, f.date.value)) else None
  }

  lemma AppliedSays(row: Extraction, r: Reading)
    requires !r.verification && r.financial
    ensures Review.Financial(Run(r)) && RowSays(Review.ApplyResult(row, Run(r)), r)
  {
    assert Money.MAX_AMOUNT == 100000000000 by {
      PowersOfTen();
    }
  }

  lemma PowersOfTen()
    ensures Digits.Pow10(11) == 100000000000
  {
    assert Digits.Pow10(4) == 10000;
    assert Digits.Pow10(8) == 100000000;
  }

  // a row the verdict on a mail is worth: neither a confirmation request nor unfinancial
  predicate WorthARow(r: Reading) {
    !r.verification && r.financial
  }

  // the mail as it is stored, before anything is known of it but its message
  predicate MailSays(mail: Email, m: Message, at: int) {
    && mail.alias == m.alias && mail.key == Some(mail.origin) && mail.receivedAt == m.receivedAt
    && mail.origin == (if |m.key| <= 512 then m.key else m.key[..512])
    && mail.messageId == (if m.messageId == "" then None
                          else Some(if |m.messageId| <= 998 then m.messageId else m.messageId[..998]))
    && mail.createdAt == at && mail.deadline.None?
  }

  // the status of a mail by the verdict
  predicate VerdictIs(status: MailStatus, stored: bool, r: Reading, amount: Option<Money.Decimal>) {
    status == if !stored then Error
              else if r.verification then Verification
              else if !r.financial then NonFinancial
              else if amount.Some? then Processed else Failed
  }

  /** Whatever a delivery adds: the mail carries the message's columns and the status of the
      verdict, a row is added exactly for a stored financial mail, and it says what was read. */
  lemma DeliverySays(p: Policy, s: World, step: Step)
    requires step.Handle? && Enabled(p, s, step)
    ensures var t, u := s.t, Next(p, s, step).t; var m, at, r := s.sent[step.flight.key], step.flight.at, step.reading;
            || u == t
            || (&& |u.emails| == |t.emails| + 1 && u.emails[..|t.emails|] == t.emails
                && MailSays(u.emails[|t.emails|], m, at)
                && var stored := u.emails[|t.emails|].origin in s.store;
                   && |u.rows| == |t.rows| + (if stored && WorthARow(r) then 1 else 0) && u.rows[..|t.rows|] == t.rows
                   && (|u.rows| > |t.rows| ==> RowSays(u.rows[|t.rows|], r) && u.rows[|t.rows|].email == |t.emails|)
                   && VerdictIs(u.emails[|t.emails|].status, stored, r,
                                if |u.rows| > |t.rows| then u.rows[|t.rows|].fields.amount else None))
  {
    HandleStep(p, s, step);
    var m, at := s.sent[step.flight.key], step.flight.at;
    if Stored(p, s, Next(p, s, step), m, step) {
      AcceptSays(s.t, m, at, step.reading, step.pick);
    }
  }

  lemma AcceptSays(t: Tables, m: Message, at: int, r: Reading, pick: Option<nat>)
    requires m.alias in t.aliases && Ingest.PickFits(t, m, at, Run(r), pick)
    ensures var u := Accept(t, m, at, Run(r), pick);
            && |u.emails| == |t.emails| + 1 && u.emails[..|t.emails|] == t.emails
            && MailSays(u.emails[|t.emails|], m, at) && u.emails[|t.emails|].origin == Key(m)
            && |u.rows| == |t.rows| + (if WorthARow(r) then 1 else 0) && u.rows[..|t.rows|] == t.rows
            && (|u.rows| > |t.rows| ==> RowSays(u.rows[|t.rows|], r) && u.rows[|t.rows|].email == |t.emails|)
            && VerdictIs(u.emails[|t.emails|].status, true, r,
                         if |u.rows| > |t.rows| then u.rows[|t.rows|].fields.amount else None)
  {
    AcceptWrites(t, m, at, Run(r), pick);
    if WorthARow(r) {
      ReviewRuns.NewRowSound(t, m, at, r, pick);
      AppliedSays(Review.NewRow(|t.emails|, t.aliases[m.alias].user, m.alias, at), r);
    }
  }

  /** Reprocessing rewrites the same columns of its row, and the mail's status, and nothing
      else of either; it goes through exactly for an undecided row whose mail still has its
      object and is still financial. */
  lemma ReprocessSays(t: Tables, store: set<string>, i: nat, r: Reading, pick: Option<nat>)
    requires i < |t.rows| && t.rows[i].email < |t.emails|
    ensures var (u, reply) := Review.Reprocess(t, store, i, Run(r), pick);
            var e := t.rows[i].email;
            && (reply == Review.Done <==>
                  (t.rows[i].status == Pending || t.rows[i].status == ExtractionFailed) && WorthARow(r) &&
                  t.emails[e].key.Some? && t.emails[e].key.value != "" && t.emails[e].key.value in store)
            && (reply != Review.Done ==> reply == Review.Conflict && u == t)
            && (reply == Review.Done ==>
                  && |u.rows| == |t.rows| && |u.emails| == |t.emails| && RowSays(u.rows[i], r)
                  && u.rows[i] == t.rows[i].(fields := u.rows[i].fields, status := u.rows[i].status,
                                             fingerprint := u.rows[i].fingerprint, flagged := u.rows[i].flagged)
                  && VerdictIs(u.emails[e].status, true, r, u.rows[i].fields.amount)
                  && u == t.(rows := t.rows[i := u.rows[i]], matches := u.matches,
                             emails := t.emails[e := t.emails[e].(status := u.emails[e].status)]))
  {
    if WorthARow(r) {
      AppliedSays(t.rows[i], r);
    }
  }
}
