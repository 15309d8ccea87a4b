/** The review endpoints: confirm, dismiss and reprocess. */
module ExtractionsApi {
  import opened Common
  import opened Schema
  import opened Pipeline
  import opened Session
  import ExtractionService
  import Review

  method ConfirmExtraction(db: Database, i: nat, category: Option<string>) returns (reply: Review.Reply)
    requires db.View() == db.committed
    modifies db`rows, db`committed
    ensures (db.View(), reply) == Review.Confirm(old(db.View()), i, category) && db.committed == db.View()
  {
    if i >= |db.rows| {
      return Review.NotFound;
    }
    if db.rows[i].status == Confirmed {
      return Review.Already;
    }
    if db.rows[i].status == Dismissed {
      return Review.Conflict;
    }
    db.rows := db.rows[i := db.rows[i].(status := Confirmed)];
    db.rows := db.rows[i := db.rows[i].(category := category)];
    assert db.rows == old(db.rows)[i := db.rows[i]];
    db.Commit();
    return Review.Done;
  }

  method DismissExtraction(db: Database, i: nat, reason: Option<string>) returns (reply: Review.Reply)
    requires db.View() == db.committed
    modifies db`rows, db`committed
    ensures (db.View(), reply) == Review.Dismiss(old(db.View()), i, reason) && db.committed == db.View()
  {
    if i >= |db.rows| {
      return Review.NotFound;
    }
    if db.rows[i].status == Dismissed {
      return Review.Already;
    }
    if db.rows[i].status == Confirmed {
      return Review.Conflict;
    }
    db.rows := db.rows[i := db.rows[i].(status := Dismissed)];
    db.rows := db.rows[i := db.rows[i].(reason := reason)];
    assert db.rows == old(db.rows)[i := db.rows[i]];
    db.Commit();
    return Review.Done;
  }

  // the reasons to refuse, in the order they are looked at
  method Refusal(db: Database, r2: Bucket, i: nat, res: Result) returns (refusal: Option<Review.Reply>)
    ensures refusal.None? <==> Review.Reprocessable(db.View(), r2.objects, i, res)
    ensures refusal.Some? ==> refusal.value == if i < |db.rows| then Review.Conflict else Review.NotFound
  {
    if i >= |db.rows| {
      return Some(Review.NotFound);
    }
    var row := db.rows[i];
    if row.status == Confirmed || row.status == Dismissed {
      return Some(Review.Conflict);
    }
    var e := row.email;
    if e >= |db.emails| || db.emails[e].key.None? || db.emails[e].key.value == "" {
      return Some(Review.Conflict);
    }
    if db.emails[e].key.value !in r2.objects {
      return Some(Review.Conflict);
    }
    if res.route == NotFinancial || res.route == VerificationMail {
      return Some(Review.Conflict);
    }
    return None;
  }

  method ReprocessExtraction(db: Database, r2: Bucket, i: nat, reading: Reading, pick: Option<nat>)
    returns (reply: Review.Reply)
    requires db.View() == db.committed
    requires Review.Reprocessable(db.View(), r2.objects, i, Run(reading)) ==>
               Review.PickFits(db.rows[i := Review.Redone(db.rows[i], Run(reading))], i, pick)
    modifies db`emails, db`rows, db`matches, db`committed
    ensures (db.View(), reply) == Review.Reprocess(old(db.View()), r2.objects, i, Run(reading), pick)
    ensures db.committed == db.View()
  {
    var res := Run(reading);
    var refusal := Refusal(db, r2, i, res);
    if refusal.Some? {
      return refusal.value;
    }
    var row, status := ExtractionService.ApplyResultFields(db.rows[i], res);
    db.emails := db.emails[
      row.email := db.emails[row.email].(status := if status == Pending then Processed else Failed)];
    row := row.(flagged := 0);
    db.rows := db.rows[i := row];
    db.matches := Review.Without(db.matches, i);
    var _ := ExtractionService.CheckAndFlag(db, i, pick);
    db.Commit();
    return Review.Done;
  }
}
