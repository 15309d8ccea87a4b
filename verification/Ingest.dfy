/** The ingestion handler as a function on the tables and the object store. */
module Ingest {
  import opened Common
  import opened Schema
  import opened Pipeline
  import Review

  datatype Message = Message(alias: string, key: string, messageId: string, receivedAt: Option<int>)

  /** Settings, and the three ways the world is allowed to behave:
      `lag` bounds the time a transaction waits between its start, which stamps its
      rows, and its rate check; `exclusive` forbids overlapping deliveries of one
      key; `recheck` repeats the key lookup under the alias lock, which the program
      does not do. */
  datatype Policy = Policy(
    limit: nat, window: nat, grace: nat, retention: nat,
    lag: nat, exclusive: bool, recheck: bool)

  datatype Reply = Duplicate | UnknownAlias | RateLimited | ObjectMissing | Accepted | ServerError

  datatype Outcome = Outcome(tables: Tables, store: set<string>, leaked: set<string>, reply: Reply)

  function Key(m: Message): string {
    Clip(m.key, 512)
  }

  function MessageId(m: Message): Option<string> {
    if m.messageId == "" then None else Some(Clip(m.messageId, 998))
  }

  predicate Owned(emails: seq<Email>, key: string) {
    exists i :: 0 <= i < |emails| && emails[i].key == Some(key)
  }

  predicate Seen(emails: seq<Email>, alias: string, id: Option<string>) {
    id.Some? && exists i :: 0 <= i < |emails| && emails[i].alias == alias && emails[i].messageId == id
  }

  function Recent(emails: seq<Email>, alias: string, since: int): set<nat> {
    set i: nat | i < |emails| && emails[i].alias == alias && emails[i].createdAt >= since
  }

  predicate OverLimit(p: Policy, emails: seq<Email>, alias: string, now: int) {
    p.limit > 0 && |Recent(emails, alias, now - p.window)| >= p.limit
  }

  predicate ActiveAlias(t: Tables, alias: string) {
    alias in t.aliases && t.aliases[alias].active
  }

  function NewMail(m: Message, at: int): Email {
    Email(m.alias, Some(Key(m)), MessageId(m), m.receivedAt, at, None, Arrived, Key(m))
  }

  function WithMail(t: Tables, m: Message, at: int): Tables {
    t.(emails := t.emails + [NewMail(m, at)])
  }

  // the missing-object path: the row stays, nothing is counted
  function RecordMissing(t: Tables, m: Message, at: int): Tables {
    t.(emails := t.emails + [NewMail(m, at).(status := Error)])
  }

  // everything an accepted mail writes, in one transaction
  function Accept(t: Tables, m: Message, at: int, res: Result, pick: Option<nat>): Tables
    requires m.alias in t.aliases
  {
    var a := t.aliases[m.alias];
    var e := |t.emails|;
    var u := Review.Persist(WithMail(t, m, at), e, a.user, res, a.apiKey, at, pick);
    u.(aliases := u.aliases[m.alias := a.(received := a.received + 1)],
       outbox := u.outbox + if a.received == 0 then [NewEvent(a.apiKey, m.alias, FirstEmail(e), at)] else [])
  }

  // the candidate query of the duplicate check answers truthfully
  predicate PickFits(t: Tables, m: Message, at: int, res: Result, pick: Option<nat>)
    requires m.alias in t.aliases
  {
    Review.Financial(res) ==>
      var rows := Review.RowsWith(WithMail(t, m, at), |t.emails|, t.aliases[m.alias].user, res, at);
      Review.PickFits(rows, |t.rows|, pick)
  }

  // best-effort deletion of an object no row will own
  function DropObject(t: Tables, store: set<string>, key: string, deleteFails: bool, reply: Reply): Outcome {
    if deleteFails then Outcome(t, store, {key} * store, reply) else Outcome(t, store - {key}, {}, reply)
  }

  // email_received from the alias lock on. `at` is the start of the transaction.
  function Receive(p: Policy, t: Tables, store: set<string>, m: Message, at: int, now: int,
                   res: Result, pick: Option<nat>, deleteFails: bool): Outcome
  {
    if p.recheck && Owned(t.emails, Key(m)) then Outcome(t, store, {}, Duplicate)
    else if !ActiveAlias(t, m.alias) then DropObject(t, store, Key(m), deleteFails, UnknownAlias)
    else if Seen(t.emails, m.alias, MessageId(m)) then DropObject(t, store, Key(m), deleteFails, Duplicate)
    else if OverLimit(p, t.emails, m.alias, now) then DropObject(t, store, Key(m), deleteFails, RateLimited)
    else if Owned(t.emails, Key(m)) then Outcome(t, store, {}, ServerError)  // unique r2_key
    else if Key(m) !in store then Outcome(RecordMissing(t, m, at), store, {}, ObjectMissing)
    else Outcome(Accept(t, m, at, res, pick), store, {}, Accepted)
  }

  /** The reply says what became of the mail: rows appear exactly on Accepted and
      ObjectMissing, the counter moves exactly on Accepted, and no retry, re-forward
      or over-limit mail adds a row that could use up budget. */
  lemma ReplyMeansEffect(p: Policy, t: Tables, store: set<string>, m: Message, at: int, now: int,
                         res: Result, pick: Option<nat>, deleteFails: bool)
    ensures var o := Receive(p, t, store, m, at, now, res, pick, deleteFails);
            && (o.reply in {Accepted, ObjectMissing} <==> |o.tables.emails| == |t.emails| + 1)
            && (o.reply !in {Accepted, ObjectMissing} ==> o.tables == t)
            && (o.reply == Accepted <==>
                  m.alias in t.aliases && m.alias in o.tables.aliases &&
                  o.tables.aliases[m.alias].received == t.aliases[m.alias].received + 1)
            && (o.reply == ObjectMissing ==>
                o.tables.aliases == t.aliases && o.tables.rows == t.rows && o.tables.outbox == t.outbox)
            && (o.reply in {Accepted, ObjectMissing} ==>
                  !Owned(t.emails, Key(m)) && !Seen(t.emails, m.alias, MessageId(m)) &&
                  !OverLimit(p, t.emails, m.alias, now))
  {
  }

  // a row with that Message-ID was accepted
  predicate Original(emails: seq<Email>, alias: string, id: Option<string>) {
    exists i :: 0 <= i < |emails| && emails[i].alias == alias && emails[i].messageId == id && emails[i].status != Error
  }

  /** The duplicate check does not ask what became of the row it finds. A copy is deleted
      as a duplicate of a mail that was never accepted exactly when the alias is active,
      the copy is stored and its deletion works, and all rows of the alias with its
      Message-ID, of which there is one, are missing-object rows. */
  lemma DuplicateWithoutOriginal(p: Policy, t: Tables, store: set<string>, m: Message, at: int, now: int,
                                 res: Result, pick: Option<nat>, deleteFails: bool)
    ensures var o := Receive(p, t, store, m, at, now, res, pick, deleteFails);
            o.reply == Duplicate && Key(m) in store && Key(m) !in o.store &&
            !Original(o.tables.emails, m.alias, MessageId(m)) <==>
              && !(p.recheck && Owned(t.emails, Key(m))) && ActiveAlias(t, m.alias) && Key(m) in store && !deleteFails
              && Seen(t.emails, m.alias, MessageId(m))
              && forall i :: 0 <= i < |t.emails| && t.emails[i].alias == m.alias &&
                             t.emails[i].messageId == MessageId(m) ==>
                   t.emails[i].status == Error
  {
  }
}
