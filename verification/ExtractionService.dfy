/** extraction_service and duplicate_service: the methods behind Review's functions. */
module ExtractionService {
  import opened Common
  import opened Schema
  import opened Pipeline
  import opened Session
  import Money
  import Review

  // maps a result onto a row, field by field; an out-of-range amount degrades the status
  method ApplyResultFields(row: Extraction, res: Result) returns (out: Extraction, status: ReviewStatus)
    requires Review.Financial(res)
    ensures out == Review.ApplyResult(row, res) && status == out.status
  {
    var amount := res.fields.amount;
    status := if res.route == ToReview then Pending else ExtractionFailed;
    if amount.Some? && !Money.Admitted(amount.value) {
      amount := None;
      status := ExtractionFailed;
    }
    out := row.(fields := res.fields.(amount := amount));
    out := out.(status := status);
    out := out.(fingerprint := if amount.Some? then res.fingerprint else None);
  }

  // `pick` is the database's answer to the candidate query
  method CheckAndFlag(db: Database, i: nat, pick: Option<nat>) returns (flagged: bool)
    requires i < |db.rows| && Review.PickFits(db.rows, i, pick)
    modifies db`rows, db`matches
    ensures db.View() == Review.Flag(old(db.View()), i, pick)
    ensures var rows := old(db.rows); var row := rows[i];
            flagged <==>
              row.fingerprint.Some? && row.status == Pending &&
              exists j :: 0 <= j < |rows| && j != i && (rows[j].status == Pending || rows[j].status == Confirmed) &&
                          rows[j].fingerprint == row.fingerprint && rows[j].user == row.user
  {
    var row := db.rows[i];
    Review.CandidateIs(db.rows, i);
    if row.fingerprint.None? || row.status != Pending {
      return false;
    }
    if pick.None? {
      return false;
    }
    db.rows := db.rows[i := row.(flagged := 1)];
    db.matches := db.matches + [Match(i, pick.value)];
    return true;
  }

  method PersistResult(db: Database, e: nat, user: string, res: Result, apiKey: Option<nat>, at: int, pick: Option<nat>)
    returns (row: Option<nat>)
    requires e < |db.emails|
    requires Review.Financial(res) ==>
               Review.PickFits(Review.RowsWith(db.View(), e, user, res, at), |db.rows|, pick)
    modifies db`emails, db`rows, db`matches, db`outbox
    ensures db.View() == Review.Persist(old(db.View()), e, user, res, apiKey, at, pick)
    ensures row == if Review.Financial(res) then Some(|old(db.rows)|) else None
  {
    var alias := db.emails[e].alias;
    db.emails := db.emails[e := db.emails[e].(status := Review.MailStatusOf(res.route))];
    if res.route == VerificationMail {
      db.outbox := db.outbox + [NewEvent(apiKey, alias, ForwardingCode(e), at)];
      return None;
    }
    if res.route == NotFinancial {
      return None;
    }
    var i := |db.rows|;
    var added, status := ApplyResultFields(Review.NewRow(e, user, alias, at), res);
    if status == ExtractionFailed {
      db.emails := db.emails[e := db.emails[e].(status := Failed)];
    }
    db.rows := db.rows + [added];
    var _ := CheckAndFlag(db, i, pick);
    var created := status == Pending;
    var payload := ExtractionEvent(i, created, db.rows[i].status, Review.AmountText(db.rows[i]), db.rows[i].flagged);
    db.outbox := db.outbox + [NewEvent(apiKey, alias, payload, at)];
    return Some(i);
  }
}
