/** The email-received handler, statement by statement. */
module IngestService {
  import opened Common
  import opened Schema
  import opened Pipeline
  import opened Ingest
  import opened Session
  import ExtractionService

  method DeleteOrphan(r2: Bucket, key: string, fails: bool)
    modifies r2
    ensures r2.objects == if fails then old(r2.objects) else old(r2.objects) - {key}
  {
    if !fails {
      r2.Delete(key);
    }
  }

  // every accepted mail is counted, and the alias's first one is announced
  method CountAccepted(db: Database, name: string, e: nat, at: int)
    requires name in db.aliases
    modifies db`aliases, db`outbox
    ensures var a := old(db.aliases)[name];
            && db.aliases == old(db.aliases)[name := a.(received := a.received + 1)]
            && db.outbox == old(db.outbox) +
                          if a.received == 0 then [NewEvent(a.apiKey, name, FirstEmail(e), at)] else []
  {
    var alias := db.aliases[name];
    var wasFirst := alias.received == 0;
    db.aliases := db.aliases[name := alias.(received := alias.received + 1)];
    if wasFirst {
      db.outbox := db.outbox + [NewEvent(alias.apiKey, name, FirstEmail(e), at)];
    }
  }

  // From the insert to the commit, for a mail that passed every check. The insert fails
  // on the unique key, the read of the object may fail, and both roll everything back.
  method StoreMail(db: Database, r2: Bucket, m: Message, at: int, reading: Reading, pick: Option<nat>, readFails: bool)
    returns (reply: Reply)
    requires db.View() == db.committed && m.alias in db.aliases
    requires PickFits(db.View(), m, at, Run(reading), pick)
    modifies db
    ensures db.View() == db.committed
    ensures var t := old(db.View());
            if readFails || Owned(t.emails, Key(m)) then reply == ServerError && db.committed == t
            else if Key(m) !in r2.objects then reply == ObjectMissing && db.committed == RecordMissing(t, m, at)
            else reply == Accepted && db.committed == Accept(t, m, at, Run(reading), pick)
  {
    var alias := db.aliases[m.alias];
    var e := |db.emails|;
    if Owned(db.emails, Key(m)) {
      db.Rollback();
      return ServerError;
    }
    db.emails := db.emails + [NewMail(m, at)];
    if readFails {
      db.Rollback();
      return ServerError;
    }
    if Key(m) !in r2.objects {
      db.emails := db.emails[e := db.emails[e].(status := Error)];
      db.Commit();
      assert db.emails == old(db.emails) + [NewMail(m, at).(status := Error)];
      return ObjectMissing;
    }
    var _ := ExtractionService.PersistResult(db, e, alias.user, Run(reading), alias.apiKey, at, pick);
    CountAccepted(db, m.alias, e, at);
    db.Commit();
    return Accepted;
  }

  // The locked part of the handler, from the alias row lock to the commit. Whatever
  // happens, what is committed is either all of the outcome or nothing.
  method Locked(db: Database, r2: Bucket, p: Policy, m: Message, at: int, now: int, reading: Reading,
                pick: Option<nat>, deleteFails: bool, readFails: bool) returns (reply: Reply)
    requires db.View() == db.committed && !p.recheck
    requires m.alias in db.aliases ==> PickFits(db.View(), m, at, Run(reading), pick)
    modifies db, r2
    ensures db.View() == db.committed
    ensures var o := Receive(p, old(db.View()), old(r2.objects), m, at, now, Run(reading), pick, deleteFails);
            if readFails && o.reply in {ObjectMissing, Accepted}
            then reply == ServerError && db.committed == old(db.committed) && r2.objects == old(r2.objects)
            else reply == o.reply && db.committed == o.tables && r2.objects == o.store
  {
    var key, id := Key(m), MessageId(m);
    if m.alias !in db.aliases || !db.aliases[m.alias].active {
      DeleteOrphan(r2, key, deleteFails);
      return UnknownAlias;
    }
    if id.Some? {
      if Seen(db.emails, m.alias, id) {
        DeleteOrphan(r2, key, deleteFails);
        return Duplicate;
      }
    }
    if p.limit > 0 {
      var recent := |Recent(db.emails, m.alias, now - p.window)|;
      if recent >= p.limit {
        DeleteOrphan(r2, key, deleteFails);
        return RateLimited;
      }
    }
    reply := StoreMail(db, r2, m, at, reading, pick, readFails);
  }

  /** The handler without interference: a key some row owns is acknowledged and nothing
      is touched, whatever became of its alias; any other is decided under the lock. */
  method EmailReceived(db: Database, r2: Bucket, p: Policy, m: Message, at: int, now: int, reading: Reading,
                       pick: Option<nat>, deleteFails: bool, readFails: bool) returns (reply: Reply)
    requires db.View() == db.committed && !p.recheck
    requires m.alias in db.aliases ==> PickFits(db.View(), m, at, Run(reading), pick)
    modifies db, r2
    ensures db.View() == db.committed
    ensures Owned(old(db.emails), Key(m)) ==>
              reply == Duplicate && db.committed == old(db.committed) && r2.objects == old(r2.objects)
    ensures !Owned(old(db.emails), Key(m)) ==>
              var o := Receive(p, old(db.View()), old(r2.objects), m, at, now, Run(reading), pick, deleteFails);
              if readFails && o.reply in {ObjectMissing, Accepted}
              then reply == ServerError && db.committed == old(db.committed) && r2.objects == old(r2.objects)
              else reply == o.reply && db.committed == o.tables && r2.objects == o.store
  {
    if Owned(db.emails, Key(m)) {
      return Duplicate;
    }
    reply := Locked(db, r2, p, m, at, now, reading, pick, deleteFails, readFails);
  }
}
