/** What each kind of step leaves alone. A delivery is the only step that adds a
    mail; every other step is summed up by the relations below, and each invariant
    is carried over the relations rather than over the steps. */
module Frames {
  import opened Common
  import opened Schema
  import opened Pipeline
  import opened Ingest
  import opened World
  import Outbox
  import Privacy
  import Review

  // aliases are only added, deactivated, or counted up by a delivery
  predicate AliasesKept(a: map<string, Alias>, b: map<string, Alias>) {
    forall x :: x in a ==> x in b && a[x] == b[x].(active := a[x].active) && (b[x].active ==> a[x].active)
  }

  predicate AliasesFresh(a: map<string, Alias>, b: map<string, Alias>) {
    forall x :: x in b && x !in a ==> b[x].received == 0
  }

  predicate SameMail(a: Email, b: Email, nulled: bool) {
    && b == a.(key := b.key, deadline := b.deadline, status := b.status)
    && b.key == (if nulled then None else a.key)
    && (a.deadline.Some? ==> b.deadline == a.deadline)
    && (a.status == Error <==> b.status == Error)
  }

  predicate MailsKept(a: seq<Email>, b: seq<Email>, nulled: set<nat>) {
    |a| == |b| && forall i :: 0 <= i < |a| ==> SameMail(a[i], b[i], i in nulled)
  }

  predicate SameOrigin(a: Extraction, b: Extraction) {
    b.email == a.email && b.user == a.user && b.alias == a.alias && b.createdAt == a.createdAt
  }

  // rows keep their identity, and a decided row keeps everything
  predicate RowsKept(a: seq<Extraction>, b: seq<Extraction>) {
    |a| == |b| && forall i :: 0 <= i < |a| ==> SameOrigin(a[i], b[i]) && (Review.Decided(a[i]) ==> b[i] == a[i])
  }

  predicate EventsKept(a: seq<Event>, b: seq<Event>) {
    |a| == |b| && forall i :: 0 <= i < |a| ==>
      b[i].apiKey == a[i].apiKey && b[i].alias == a[i].alias && b[i].kind == a[i].kind
  }

  predicate TablesKept(a: Tables, b: Tables, nulled: set<nat>) {
    && AliasesKept(a.aliases, b.aliases) && AliasesFresh(a.aliases, b.aliases)
    && MailsKept(a.emails, b.emails, nulled) && RowsKept(a.rows, b.rows) && EventsKept(a.outbox, b.outbox)
  }

  function NulledBy(step: Step): set<nat> {
    if step.PurgeCommit? then step.mails else {}
  }

  // the mail of an extraction row was accepted
  predicate RowsHaveMails(t: Tables) {
    forall i :: 0 <= i < |t.rows| ==> t.rows[i].email < |t.emails| && t.emails[t.rows[i].email].status != Error
  }

  lemma ReprocessKeepsMails(t: Tables, store: set<string>, i: nat, res: Result, pick: Option<nat>)
    requires RowsHaveMails(t)
    ensures MailsKept(t.emails, Review.Reprocess(t, store, i, res, pick).0.emails, {})
  {
  }

  lemma ReprocessKeepsRest(t: Tables, store: set<string>, i: nat, res: Result, pick: Option<nat>)
    ensures var u := Review.Reprocess(t, store, i, res, pick).0;
            RowsKept(t.rows, u.rows) && u.aliases == t.aliases && u.outbox == t.outbox
  {
  }

  lemma ReprocessKeeps(t: Tables, store: set<string>, i: nat, res: Result, pick: Option<nat>)
    requires RowsHaveMails(t)
    ensures TablesKept(t, Review.Reprocess(t, store, i, res, pick).0, {})
  {
    ReprocessKeepsMails(t, store, i, res, pick);
    ReprocessKeepsRest(t, store, i, res, pick);
  }

  // a decision writes one row, and only if no decision was there
  lemma RowWriteKeeps(t: Tables, i: nat, row: Extraction)
    requires i < |t.rows| && SameOrigin(t.rows[i], row) && !Review.Decided(t.rows[i])
    ensures TablesKept(t, t.(rows := t.rows[i := row]), {})
  {
  }

  lemma DecisionKeeps(t: Tables, i: nat, text: Option<string>)
    ensures TablesKept(t, Review.Confirm(t, i, text).0, {})
    ensures TablesKept(t, Review.Dismiss(t, i, text).0, {})
  {
    NothingKeeps(t);
    if i < |t.rows| && !Review.Decided(t.rows[i]) {
      RowWriteKeeps(t, i, t.rows[i].(status := Confirmed, category := text));
      RowWriteKeeps(t, i, t.rows[i].(status := Dismissed, reason := text));
    }
  }

  lemma EraseKeeps(t: Tables, user: string, deadline: int)
    ensures TablesKept(t, Privacy.Schedule(t, user, deadline), {})
  {
  }

  lemma BatchKeeps(t: Tables, b: Outbox.Batch, done: nat)
    requires Outbox.BatchShape(b, t.outbox)
    ensures TablesKept(t, t.(outbox := Outbox.Polled(t.outbox, b)), {})
    ensures TablesKept(t, t.(outbox := Outbox.Crashed(t.outbox, b, done)), {})
  {
    Outbox.PolledIdentity(t.outbox, b, done);
  }

  lemma NullKeeps(t: Tables, ids: set<nat>)
    ensures TablesKept(t, t.(emails := Privacy.NullKeys(t.emails, ids)), ids)
  {
  }

  lemma AliasStepKeeps(t: Tables, alias: string, a: Alias)
    requires alias in t.aliases ==> a == t.aliases[alias].(active := false)
    requires alias !in t.aliases ==> a.received == 0
    ensures TablesKept(t, t.(aliases := t.aliases[alias := a]), {})
  {
  }

  lemma NothingKeeps(t: Tables)
    ensures TablesKept(t, t, {})
  {
  }

  /** Every step but a delivery keeps the tables up to the named changes. */
  lemma OtherSteps(p: Policy, s: World, step: Step)
    requires Enabled(p, s, step) && !step.Handle? && RowsHaveMails(s.t)
    ensures TablesKept(s.t, Next(p, s, step).t, NulledBy(step))
  {
    NothingKeeps(s.t);
    match step {
      case Reprocess(i, reading, pick) => ReprocessKeeps(s.t, s.store, i, Run(reading), pick);
      case Confirm(i, text) => DecisionKeeps(s.t, i, text);
      case Dismiss(i, text) => DecisionKeeps(s.t, i, text);
      case EraseUser(user) => EraseKeeps(s.t, user, s.clock + p.grace);
      case Poll(b) => BatchKeeps(s.t, b, 0);
      case PollCrash(b, done) => BatchKeeps(s.t, b, done);
      case PurgeCommit(ids) => NullKeeps(s.t, ids);
      case CreateAlias(alias, user, apiKey) => AliasStepKeeps(s.t, alias, Alias(user, apiKey, true, 0));
      case Deactivate(alias) => AliasStepKeeps(s.t, alias, s.t.aliases[alias].(active := false));
      case _ =>
    }
  }

  // ---- deliveries ------------------------------------------------------------------

  // the events an accepted mail announces, before the first-email event
  function WorkEvents(t: Tables, m: Message, at: int, res: Result, rows: seq<Extraction>): seq<Event>
    requires m.alias in t.aliases && (Review.Financial(res) ==> |t.rows| < |rows|)
  {
    var a := t.aliases[m.alias];
    match res.route
    case NotFinancial => []
    case VerificationMail => [NewEvent(a.apiKey, m.alias, ForwardingCode(|t.emails|), at)]
    case _ => [NewEvent(a.apiKey, m.alias, Review.Announcement(rows, |t.rows|), at)]
  }

  function FirstEvents(t: Tables, m: Message, at: int): seq<Event>
    requires m.alias in t.aliases
  {
    var a := t.aliases[m.alias];
    if a.received == 0 then [NewEvent(a.apiKey, m.alias, FirstEmail(|t.emails|), at)] else []
  }

  // the accepted mail's status agrees with what was extracted
  predicate StatusFits(status: MailStatus, res: Result, row: Extraction) {
    match res.route
    case NotFinancial => status == NonFinancial
    case VerificationMail => status == Verification
    case _ => !Review.Decided(row) && status == if row.status == Pending then Processed else Failed
  }

  // the new mail and the counter
  predicate WritesMail(t: Tables, m: Message, at: int, u: Tables)
    requires m.alias in t.aliases
  {
    var a, n := t.aliases[m.alias], |t.emails|;
    && u.aliases == t.aliases[m.alias := a.(received := a.received + 1)]
    && |u.emails| == n + 1 && u.emails[..n] == t.emails
    && u.emails[n] == NewMail(m, at).(status := u.emails[n].status)
    && u.emails[n].status != Error && u.emails[n].status != Arrived
  }

  // the row, if one is extracted, and the events
  predicate WritesRow(t: Tables, m: Message, at: int, res: Result, u: Tables)
    requires m.alias in t.aliases && |u.emails| == |t.emails| + 1
  {
    var k := |t.rows|;
    && |u.rows| == k + (if Review.Financial(res) then 1 else 0) && u.rows[..k] == t.rows
    && u.outbox == t.outbox + WorkEvents(t, m, at, res, u.rows) + FirstEvents(t, m, at)
    && (Review.Financial(res) ==>
          && u.rows[k].email == |t.emails| && u.rows[k].user == t.aliases[m.alias].user
          && u.rows[k].alias == m.alias && u.rows[k].createdAt == at
          && StatusFits(u.emails[|t.emails|].status, res, u.rows[k]))
  }

  lemma AcceptWritesMail(t: Tables, m: Message, at: int, res: Result, pick: Option<nat>)
    requires m.alias in t.aliases
    ensures WritesMail(t, m, at, Accept(t, m, at, res, pick))
  {
  }

  lemma AcceptWritesRow(t: Tables, m: Message, at: int, res: Result, pick: Option<nat>)
    requires m.alias in t.aliases
    ensures var u := Accept(t, m, at, res, pick); |u.emails| == |t.emails| + 1 && WritesRow(t, m, at, res, u)
  {
  }

  /** The whole write set of an accepted mail. */
  lemma AcceptWrites(t: Tables, m: Message, at: int, res: Result, pick: Option<nat>)
    requires m.alias in t.aliases
    ensures var u := Accept(t, m, at, res, pick); WritesMail(t, m, at, u) && WritesRow(t, m, at, res, u)
  {
    AcceptWritesMail(t, m, at, res, pick);
    AcceptWritesRow(t, m, at, res, pick);
  }

  // the guards a mail passed that made it into a row
  predicate Admitted(p: Policy, s: World, m: Message) {
    ActiveAlias(s.t, m.alias) && !Owned(s.t.emails, Key(m)) && !OverLimit(p, s.t.emails, m.alias, s.clock)
  }

  // a delivery that wrote no row: at most its own object went
  predicate Rejected(p: Policy, s: World, s': World, m: Message) {
    && s'.t == s.t && s'.store <= s.store && s.store - {Key(m)} <= s'.store
    && (Key(m) in s.store && Key(m) !in s'.store && p.recheck ==> !Owned(s.t.emails, Key(m)))
  }

  predicate Missed(p: Policy, s: World, s': World, m: Message, at: int) {
    && s'.t == RecordMissing(s.t, m, at) && s'.store == s.store
    && Admitted(p, s, m) && Key(m) !in s.store
  }

  predicate Stored(p: Policy, s: World, s': World, m: Message, step: Step)
    requires step.Handle?
  {
    && Admitted(p, s, m) && Key(m) in s.store && s'.store == s.store
    && PickFits(s.t, m, step.flight.at, Run(step.reading), step.pick)
    && s'.t == Accept(s.t, m, step.flight.at, Run(step.reading), step.pick)
  }

  // when the queue lets go of a message its object is owned, deleted, or lost track of
  predicate Released(s: World, s': World, key: string) {
    key in s.queue && key !in s'.queue && key in s'.store ==> Owned(s'.t.emails, key) || key in s'.leaked
  }

  /** What one delivery can do. */
  lemma HandleStep(p: Policy, s: World, step: Step)
    requires step.Handle? && Enabled(p, s, step)
    ensures var s' := Next(p, s, step); var f := step.flight; var m := s.sent[f.key];
            && s' == s.(t := s'.t, store := s'.store, queue := s'.queue, leaked := s'.leaked, flights := s'.flights)
            && s'.flights == s.flights - multiset{f}
            && s'.queue <= s.queue && s.queue - {f.key} <= s'.queue && s.leaked <= s'.leaked
            && (Rejected(p, s, s', m) || Missed(p, s, s', m, f.at) || Stored(p, s, s', m, step))
            && (f.key == Key(m) ==> Released(s, s', f.key))
  {
    if !step.fault {
      HandleOutcome(p, s, step);
      if step.flight.key == Key(s.sent[step.flight.key]) {
        HandleReleases(p, s, step);
      }
    }
  }

  /** An acknowledgement takes the message off the queue, and nothing else does here; it is
      given only for work that is done: the object is owned, gone or counted as leaked. */
  lemma AckSettles(p: Policy, s: World, step: Step)
    requires step.Handle? && Enabled(p, s, step) && step.flight.key == Key(s.sent[step.flight.key])
    ensures var s' := Next(p, s, step); var key := step.flight.key;
            && s'.queue == (if step.acked then s.queue - {key} else s.queue)
            && (step.acked ==> !step.fault)
            && (step.acked && key in s'.store ==> Owned(s'.t.emails, key) || key in s'.leaked)
  {
    if step.acked {
      var f := step.flight;
      ReceiveSettles(p, s.t, s.store, s.sent[f.key], f.at, s.clock, Run(step.reading), step.pick, step.deleteFails);
    }
  }

  lemma HandleOutcome(p: Policy, s: World, step: Step)
    requires step.Handle? && Enabled(p, s, step) && !step.fault
    ensures var s' := Next(p, s, step); var f := step.flight; var m := s.sent[f.key];
            Rejected(p, s, s', m) || Missed(p, s, s', m, f.at) || Stored(p, s, s', m, step)
  {
  }

  // whatever the reply short of a server error, the object is owned, gone or lost track of
  lemma ReceiveSettles(p: Policy, t: Tables, store: set<string>, m: Message, at: int, now: int, res: Result,
                       pick: Option<nat>, deleteFails: bool)
    ensures var o := Receive(p, t, store, m, at, now, res, pick, deleteFails);
            o.reply != ServerError && Key(m) in o.store ==> Owned(o.tables.emails, Key(m)) || Key(m) in o.leaked
  {
    var o := Receive(p, t, store, m, at, now, res, pick, deleteFails);
    if o.reply == ObjectMissing || o.reply == Accepted {
      assert o.tables.emails[|t.emails|].key == Some(Key(m));
    }
  }

  lemma HandleReleases(p: Policy, s: World, step: Step)
    requires step.Handle? && Enabled(p, s, step) && !step.fault && step.flight.key == Key(s.sent[step.flight.key])
    ensures Released(s, Next(p, s, step), step.flight.key)
  {
    var f := step.flight;
    ReceiveSettles(p, s.t, s.store, s.sent[f.key], f.at, s.clock, Run(step.reading), step.pick, step.deleteFails);
  }

  // the mail a delivery inserted
  predicate Arrival(p: Policy, s: World, s': World, m: Message, at: int, mail: Email) {
    && mail == NewMail(m, at).(status := mail.status) && mail.status != Arrived
    && (mail.status == Error <==> Key(m) !in s.store)
    && s'.store == s.store && Admitted(p, s, m)
  }

  // only the counter of an alias moves
  predicate SameAliases(a: map<string, Alias>, b: map<string, Alias>) {
    a.Keys == b.Keys && forall x :: x in a ==> b[x] == a[x].(received := b[x].received)
  }

  // a delivery as far as mails, objects and the queue are concerned
  predicate DeliveryOf(p: Policy, s: World, s': World, f: Flight)
    requires f.key in s.sent
  {
    var m, n := s.sent[f.key], |s.t.emails|;
    && s' == s.(t := s'.t, store := s'.store, queue := s'.queue, leaked := s'.leaked, flights := s'.flights)
    && s'.flights == s.flights - multiset{f}
    && s'.queue <= s.queue && s.queue - {f.key} <= s'.queue && s.leaked <= s'.leaked
    && (f.key == Key(m) ==> Released(s, s', f.key))
    && SameAliases(s.t.aliases, s'.t.aliases)
    && (|| (s'.t.emails == s.t.emails && Rejected(p, s, s', m))
        || (|s'.t.emails| == n + 1 && s'.t.emails[..n] == s.t.emails &&
            Arrival(p, s, s', m, f.at, s'.t.emails[n])))
  }

  lemma DeliveryStep(p: Policy, s: World, step: Step)
    requires step.Handle? && Enabled(p, s, step)
    ensures DeliveryOf(p, s, Next(p, s, step), step.flight)
  {
    HandleStep(p, s, step);
    var m := s.sent[step.flight.key];
    if Stored(p, s, Next(p, s, step), m, step) {
      AcceptWrites(s.t, m, step.flight.at, Run(step.reading), step.pick);
    }
  }
}
