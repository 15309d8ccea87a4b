/** The main results: what holds after every run of the whole system. */
module Theorems {
  import opened Common
  import opened Schema
  import opened Ingest
  import opened World
  import opened Runs
  import opened Frames
  import opened Exactness
  import opened Conservation
  import opened Counters
  import opened Erasure
  import opened Announcements
  import Money
  import OutboxRuns
  import Outbox
  import Pipeline
  import RateBound
  import Review
  import ReviewRuns

  ghost predicate Good(p: Policy, s: World) {
    && Exact(s) && Agreed(s.t) && Conserved(s)
    && RateBound.RateBounded(p, s.t.emails)
    && ErasedSound(s) && PurgedInTime(p, s)
    && ReviewRuns.Reviewed(s.t) && OutboxRuns.QueueGood(s)
  }

  lemma StartSound(p: Policy)
    ensures Exact(START) && Agreed(START.t) && Conserved(START) && ReviewRuns.Reviewed(START.t)
  {
  }

  lemma StartInTime(p: Policy)
    ensures RateBound.RateBounded(p, START.t.emails) && ErasedSound(START) && PurgedInTime(p, START)
    ensures OutboxRuns.QueueGood(START) && OwnersHold(START) && FlightsAlone(START)
  {
    assert forall a, lo, hi :: RateBound.InWindow([], a, lo, hi) == {};
  }

  lemma StartGood(p: Policy)
    ensures Good(p, START) && OwnersHold(START) && FlightsAlone(START)
  {
    StartSound(p);
    StartInTime(p);
  }

  lemma GoodStep(p: Policy, s: World, step: Step)
    requires Good(p, s) && Enabled(p, s, step)
    ensures Good(p, Next(p, s, step))
  {
    ExactStep(p, s, step);
    AgreedStep(p, s, step);
    ConservedStep(p, s, step);
    RateBound.RateStep(p, s, step);
    ErasedStep(p, s, step);
    InTimeStep(p, s, step);
    ReviewRuns.ReviewedStep(p, s, step);
    OutboxRuns.QueueGoodStep(p, s, step);
  }

  lemma {:induction false} GoodRun(p: Policy, s: World, steps: seq<Step>)
    requires Good(p, s) && Valid(p, s, steps)
    ensures Good(p, End(p, s, steps))
    decreases |steps|
  {
    if steps == [] {
    } else {
      GoodStep(p, s, steps[0]);
      GoodRun(p, Next(p, s, steps[0]), steps[1..]);
    }
  }

  // the object key an extraction row goes back to
  function RowKey(t: Tables, row: nat): string
    requires RowsHaveMails(t) && row < |t.rows|
  {
    t.emails[t.rows[row].email].origin
  }

  // at most one row and one extraction event per key, and counters that count keys
  predicate KeyedOnce(t: Tables) {
    && RowsAnnounced(t) && FirstOnce(t)
    && (forall i, j :: 0 <= i < j < |t.rows| ==> RowKey(t, i) != RowKey(t, j))
    && (forall j, k ::
          0 <= j < k < |t.outbox| && t.outbox[j].kind.ExtractionEvent? && t.outbox[k].kind.ExtractionEvent? ==>
          EventFits(t, t.outbox[j]) && EventFits(t, t.outbox[k]) &&
          RowKey(t, t.outbox[j].kind.row) != RowKey(t, t.outbox[k].kind.row))
    && (forall a :: a in t.aliases ==> t.aliases[a].received == |AcceptedKeys(t.emails, a)|)
  }

  lemma AcceptedKeyedOnce(t: Tables)
    requires Agreed(t) && AcceptedOnce(t.emails)
    ensures KeyedOnce(t)
  {
    RowKeysDiffer(t);
    forall j, k | 0 <= j < k < |t.outbox| && t.outbox[j].kind.ExtractionEvent? && t.outbox[k].kind.ExtractionEvent?
      ensures EventFits(t, t.outbox[j]) && EventFits(t, t.outbox[k]) &&
              RowKey(t, t.outbox[j].kind.row) != RowKey(t, t.outbox[k].kind.row)
    {
      assert EventFits(t, t.outbox[j]) && EventFits(t, t.outbox[k]);
    }
    forall a | a in t.aliases ensures t.aliases[a].received == |AcceptedKeys(t.emails, a)| {
      ImageSize(t.emails, AcceptedMails(t.emails, a));
    }
  }

  /** Exactly-once effect: in every run, with every retry, overlap, crash, deactivation,
      deletion, purge and bucket expiry, an object key leads to at most one extraction
      row and at most one extraction event, and the counter of an alias is the number
      of different keys accepted for it. */
  lemma ExactlyOnce(p: Policy, steps: seq<Step>)
    requires Valid(p, START, steps)
    ensures KeyedOnce(End(p, START, steps).t)
  {
    StartGood(p);
    GoodRun(p, START, steps);
    AcceptedKeyedOnce(End(p, START, steps).t);
  }

  lemma {:induction false} WrittenRun(p: Policy, steps: seq<Step>)
    requires Valid(p, START, steps)
    ensures AllWritten(p, steps, End(p, START, steps))
    decreases |steps|
  {
    if steps == [] {
    } else {
      var front := steps[..|steps| - 1];
      LastStep(p, START, steps);
      WrittenRun(p, front);
      StartGood(p);
      GoodRun(p, START, front);
      WrittenStep(p, steps, End(p, START, front), End(p, START, steps));
    }
  }

  /** Counters and events, after any run: emails_received is the number of accepted rows
      of the alias, the first-email event exists once and exactly when that is positive,
      extraction rows and extraction events are in bijection, and each of those events was
      written by a delivery that left its row exactly as the event says: same status, type,
      printed amount and duplicate flag. */
  lemma CountersAndEventsAgree(p: Policy, steps: seq<Step>)
    requires Valid(p, START, steps)
    ensures Agreed(End(p, START, steps).t)
    ensures AllWritten(p, steps, End(p, START, steps))
  {
    StartGood(p);
    GoodRun(p, START, steps);
    WrittenRun(p, steps);
  }

  // the event's amount against the row's, and against the row as the column gives it back
  predicate PrintsAlike(e: Event, row: Extraction)
    requires e.kind.ExtractionEvent?
  {
    match row.fields.amount
    case None => e.kind.amount == None
    case Some(d) =>
      && e.kind.amount == Some(Money.Canonical(d))
      && (Money.ThroughColumn(d).Some? && e.kind.amount == Some(Money.Canonical(Money.ThroughColumn(d).value)) <==>
            Money.FourPlaces(d) && !Money.NegativeZero(d))
  }

  lemma SoundRowsPrintAlike(e: Event, rows: seq<Extraction>)
    requires e.kind.ExtractionEvent? && Truthful(e, rows) && Review.RowSound(rows[e.kind.row])
    ensures PrintsAlike(e, rows[e.kind.row])
  {
    var amount := rows[e.kind.row].fields.amount;
    if amount.Some? {
      Money.EventMatchesDetail(amount.value);
    }
  }

  lemma WrittenPrintsAlike(p: Policy, steps: seq<Step>, n: nat, k: nat, e: Event)
    requires Valid(p, START, steps) && WrittenAt(p, steps, n, k, e) && e.kind.ExtractionEvent?
    ensures var rows := End(p, START, steps[..n + 1]).t.rows; e.kind.row < |rows| && PrintsAlike(e, rows[e.kind.row])
  {
    var s := End(p, START, steps[..n + 1]);
    StartGood(p);
    GoodRun(p, START, steps[..n + 1]);
    SoundRowsPrintAlike(s.t.outbox[k], s.t.rows);
  }

  /** The amount of every extraction event that is sent is the canonical print of its row's
      amount as the delivery left it, and the detail view prints the same from the column
      exactly when the amount has at most four decimals and is no negative zero. */
  lemma EventPrintsTheDetail(p: Policy, steps: seq<Step>, k: nat)
    requires Valid(p, START, steps) && k < |End(p, START, steps).t.outbox|
    requires End(p, START, steps).t.outbox[k].kind.ExtractionEvent?
    ensures var e := End(p, START, steps).t.outbox[k];
            exists n :: 0 <= n < |steps| && WrittenAt(p, steps, n, k, e) &&
              e.kind.row < |End(p, START, steps[..n + 1]).t.rows| &&
              PrintsAlike(e, End(p, START, steps[..n + 1]).t.rows[e.kind.row])
  {
    var e := End(p, START, steps).t.outbox[k];
    WrittenRun(p, steps);
    var n :| 0 <= n < |steps| && WrittenAt(p, steps, n, k, e);
    WrittenPrintsAlike(p, steps, n, k, e);
  }

  lemma RowKeysDiffer(t: Tables)
    requires RowsAnnounced(t) && AcceptedOnce(t.emails)
    ensures forall i, j :: 0 <= i < |t.rows| && 0 <= j < |t.rows| && i != j ==> RowKey(t, i) != RowKey(t, j)
  {
    forall i, j | 0 <= i < j < |t.rows| ensures RowKey(t, i) != RowKey(t, j) {
      var a, b := t.rows[i].email, t.rows[j].email;
      assert a < b || b < a;
    }
  }

  // ---- objects -----------------------------------------------------------------------------

  predicate LeakFree(steps: seq<Step>) {
    forall i :: 0 <= i < |steps| ==> !Leaks(steps[i])
  }

  lemma LeakFreeTail(steps: seq<Step>)
    requires steps != [] && LeakFree(steps)
    ensures LeakFree(steps[1..]) && !Leaks(steps[0])
  {
    assert forall i :: 0 <= i < |steps[1..]| ==> steps[1..][i] == steps[i + 1];
  }

  lemma {:induction false} LeaksComeFromFaults(p: Policy, s: World, steps: seq<Step>)
    requires Good(p, s) && Valid(p, s, steps) && LeakFree(steps)
    ensures End(p, s, steps).leaked == s.leaked
    decreases |steps|
  {
    if steps == [] {
    } else {
      ConservedStep(p, s, steps[0]);
      GoodStep(p, s, steps[0]);
      LeakFreeTail(steps);
      LeaksComeFromFaults(p, Next(p, s, steps[0]), steps[1..]);
    }
  }

  /** Object conservation: every stored object is owned by a mail, on its way through
      the queue, dead-lettered, or in the leak set, which stays empty unless a worker
      crashes between upload and send or a best-effort deletion fails. */
  lemma ObjectsConserved(p: Policy, steps: seq<Step>)
    requires Valid(p, START, steps)
    ensures Conserved(End(p, START, steps))
    ensures LeakFree(steps) ==> End(p, START, steps).leaked == {}
  {
    StartGood(p);
    GoodRun(p, START, steps);
    if LeakFree(steps) {
      LeaksComeFromFaults(p, START, steps);
    }
  }

  lemma {:induction false} OwnersRun(p: Policy, s: World, steps: seq<Step>)
    requires Good(p, s) && Guarded(p, s) && OwnersHold(s) && Valid(p, s, steps)
    ensures OwnersHold(End(p, s, steps))
    decreases |steps|
  {
    if steps == [] {
    } else {
      GoodStep(p, s, steps[0]);
      GuardedStep(p, s, steps[0]);
      OwnersStep(p, s, steps[0]);
      OwnersRun(p, Next(p, s, steps[0]), steps[1..]);
    }
  }

  /** Ownership safety: when deliveries of one key do not overlap, no orphan deletion
      ever takes an object an accepted mail points at. Repeating the key lookup under
      the alias lock gives the same without that assumption. */
  lemma OwnersKeepObjects(p: Policy, steps: seq<Step>)
    requires (p.exclusive || p.recheck) && Valid(p, START, steps)
    ensures OwnersHold(End(p, START, steps))
  {
    StartGood(p);
    OwnersRun(p, START, steps);
  }

  lemma {:induction false} GuardedRun(p: Policy, s: World, steps: seq<Step>)
    requires Good(p, s) && Guarded(p, s) && Valid(p, s, steps)
    ensures Guarded(p, End(p, s, steps))
    decreases |steps|
  {
    if steps == [] {
    } else {
      GoodStep(p, s, steps[0]);
      GuardedStep(p, s, steps[0]);
      GuardedRun(p, Next(p, s, steps[0]), steps[1..]);
    }
  }

  /** The same, one delivery at a time: whatever object a delivery removes in such a run,
      no row points at it, before or after. */
  lemma OrphansAreUnowned(p: Policy, before: seq<Step>, step: Step, key: string)
    requires (p.exclusive || p.recheck) && Valid(p, START, before)
    requires Enabled(p, End(p, START, before), step) && step.Handle?
    requires key in End(p, START, before).store && key !in Next(p, End(p, START, before), step).store
    ensures !Owned(End(p, START, before).t.emails, key)
    ensures !Owned(Next(p, End(p, START, before), step).t.emails, key)
  {
    StartGood(p);
    GoodRun(p, START, before);
    GuardedRun(p, START, before);
    var s := End(p, START, before);
    DeliveryStep(p, s, step);
    OrphanIsUnowned(p, s, Next(p, s, step), step.flight, key);
  }

  // ---- time ----------------------------------------------------------------------------------

  /** Rate bound: every closed window of length `window - lag` holds at most `limit`
      rows of an alias, where `lag` bounds the wait between the start of a transaction
      and its rate check. */
  lemma RateHolds(p: Policy, steps: seq<Step>, alias: string, lo: int, hi: int)
    requires p.limit > 0 && hi - lo <= p.window - p.lag && Valid(p, START, steps)
    ensures |RateBound.InWindow(End(p, START, steps).t.emails, alias, lo, hi)| <= p.limit
  {
    StartGood(p);
    GoodRun(p, START, steps);
  }

  predicate NoNewAlias(steps: seq<Step>, user: string) {
    forall i :: 0 <= i < |steps| ==> steps[i].CreateAlias? ==> steps[i].user != user
  }

  lemma NoNewAliasTail(steps: seq<Step>, user: string)
    requires steps != [] && NoNewAlias(steps, user)
    ensures NoNewAlias(steps[1..], user) && (steps[0].CreateAlias? ==> steps[0].user != user)
  {
    assert forall i :: 0 <= i < |steps[1..]| ==> steps[1..][i] == steps[i + 1];
  }

  lemma {:induction false} StaysErased(p: Policy, s: World, steps: seq<Step>, user: string)
    requires Good(p, s) && Valid(p, s, steps) && NoNewAlias(steps, user) && user in s.erased
    ensures user in End(p, s, steps).erased
    decreases |steps|
  {
    if steps == [] {
    } else {
      GoodStep(p, s, steps[0]);
      NoNewAliasTail(steps, user);
      ErasedKept(p, s, steps[0], user);
      StaysErased(p, Next(p, s, steps[0]), steps[1..], user);
    }
  }

  lemma ErasedKept(p: Policy, s: World, step: Step, user: string)
    requires Enabled(p, s, step) && user in s.erased && (step.CreateAlias? ==> step.user != user)
    ensures user in Next(p, s, step).erased
  {
  }

  /** Deletion completeness: from the moment a deletion commits, and as long as no new
      alias is created for the user, every raw mail of the user has a deadline and
      nothing new is accepted, whatever deliveries were already under way. */
  lemma DeletionComplete(p: Policy, before: seq<Step>, user: string, after: seq<Step>)
    requires Valid(p, START, before) && Enabled(p, End(p, START, before), EraseUser(user))
    requires Valid(p, Next(p, End(p, START, before), EraseUser(user)), after) && NoNewAlias(after, user)
    ensures ErasedUser(End(p, Next(p, End(p, START, before), EraseUser(user)), after).t, user)
  {
    StartGood(p);
    GoodRun(p, START, before);
    var s := End(p, START, before);
    GoodStep(p, s, EraseUser(user));
    StaysErased(p, Next(p, s, EraseUser(user)), after, user);
    GoodRun(p, Next(p, s, EraseUser(user)), after);
  }

  /** No pointer is nulled before its deletion deadline or its retention time has come. */
  lemma NothingPurgedEarly(p: Policy, steps: seq<Step>, i: nat)
    requires Valid(p, START, steps) && i < |End(p, START, steps).t.emails|
    requires End(p, START, steps).t.emails[i].key.None?
    ensures TimeHasCome(p, End(p, START, steps).t.emails[i], End(p, START, steps).clock)
  {
    StartGood(p);
    GoodRun(p, START, steps);
  }

  // ---- what never changes again ------------------------------------------------------------

  predicate MailFixed(a: Email, b: Email) {
    && b == a.(key := b.key, deadline := b.deadline, status := b.status)
    && (a.deadline.Some? ==> b.deadline == a.deadline)
    && (b.key == a.key || b.key.None?) && (a.key.None? ==> b.key.None?)
    && (a.status == Error <==> b.status == Error)
  }

  // deadlines are written once, pointers nulled once, decisions and settled events frozen
  predicate Frozen(a: Tables, b: Tables) {
    && |a.emails| <= |b.emails| && (forall i :: 0 <= i < |a.emails| ==> MailFixed(a.emails[i], b.emails[i]))
    && |a.rows| <= |b.rows| && (forall i :: 0 <= i < |a.rows| && Review.Decided(a.rows[i]) ==> b.rows[i] == a.rows[i])
    && |a.outbox| <= |b.outbox|
    && (forall i :: 0 <= i < |a.outbox| && a.outbox[i].status != Waiting ==> b.outbox[i] == a.outbox[i])
  }

  lemma SettledStep(p: Policy, s: World, step: Step)
    requires Enabled(p, s, step) && !step.Handle? && OutboxRuns.LeasesSound(s)
    ensures var t' := Next(p, s, step).t;
            |t'.outbox| == |s.t.outbox| &&
            forall k :: 0 <= k < |s.t.outbox| && s.t.outbox[k].status != Waiting ==> t'.outbox[k] == s.t.outbox[k]
  {
    OutboxRuns.OtherStepsQueue(p, s, step);
    if step.Poll? || step.PollCrash? {
      assert OutboxRuns.LeaseSound(s, step.batch.Held());
      forall k | 0 <= k < |s.t.outbox| && s.t.outbox[k].status != Waiting
        ensures Next(p, s, step).t.outbox[k] == s.t.outbox[k]
      {
        Outbox.SettledStays(s.t.outbox, step.batch, if step.PollCrash? then step.done else 0, k);
      }
    }
  }

  lemma KeptFrozen(a: Tables, b: Tables, nulled: set<nat>)
    requires TablesKept(a, b, nulled)
    requires forall k :: 0 <= k < |a.outbox| && a.outbox[k].status != Waiting ==> b.outbox[k] == a.outbox[k]
    ensures Frozen(a, b)
  {
    forall i | 0 <= i < |a.emails| ensures MailFixed(a.emails[i], b.emails[i]) {
      assert SameMail(a.emails[i], b.emails[i], i in nulled);
    }
  }

  lemma DeliveryFrozen(p: Policy, s: World, step: Step)
    requires step.Handle? && Enabled(p, s, step)
    ensures Frozen(s.t, Next(p, s, step).t)
  {
    HandleStep(p, s, step);
    var s' := Next(p, s, step);
    var m, at := s.sent[step.flight.key], step.flight.at;
    if Stored(p, s, s', m, step) {
      AcceptWrites(s.t, m, at, Pipeline.Run(step.reading), step.pick);
      forall i | 0 <= i < |s.t.emails| ensures s'.t.emails[i] == s.t.emails[i] {
      }
    }
  }

  lemma FrozenStep(p: Policy, s: World, step: Step)
    requires Enabled(p, s, step) && RowsHaveMails(s.t) && OutboxRuns.LeasesSound(s)
    ensures Frozen(s.t, Next(p, s, step).t)
  {
    if step.Handle? {
      DeliveryFrozen(p, s, step);
    } else {
      OtherSteps(p, s, step);
      SettledStep(p, s, step);
      KeptFrozen(s.t, Next(p, s, step).t, NulledBy(step));
    }
  }

  lemma FrozenTransitive(a: Tables, b: Tables, c: Tables)
    requires Frozen(a, b) && Frozen(b, c)
    ensures Frozen(a, c)
  {
    forall i | 0 <= i < |a.emails| ensures MailFixed(a.emails[i], c.emails[i]) {
      assert MailFixed(a.emails[i], b.emails[i]) && MailFixed(b.emails[i], c.emails[i]);
    }
  }

  lemma DecidedIn(p: Policy, s: World, step: Step, i: nat)
    requires Enabled(p, s, step) && RowsHaveMails(s.t)
    requires i < |Next(p, s, step).t.rows| && Review.Decided(Next(p, s, step).t.rows[i])
    ensures var row := Next(p, s, step).t.rows[i];
            || (i < |s.t.rows| && s.t.rows[i] == row)
            || (row.status == Confirmed && step == Confirm(i, row.category))
            || (row.status == Dismissed && step == Dismiss(i, row.reason))
  {
    if step.Handle? {
      NewRowsUndecided(p, s, step, i);
    } else if step.Reprocess? {
      ReprocessDecides(s.t, s.store, step.row, step.reading, step.pick, i);
    } else if step.Confirm? || step.Dismiss? {
      ReviewRuns.DecisionIs(s.t, step.row, if step.Confirm? then step.category else step.reason);
    } else {
      ReviewRuns.OtherStepsUnrelated(p, s, step);
    }
  }

  lemma NewRowsUndecided(p: Policy, s: World, step: Step, i: nat)
    requires step.Handle? && Enabled(p, s, step)
    requires i < |Next(p, s, step).t.rows| && Review.Decided(Next(p, s, step).t.rows[i])
    ensures i < |s.t.rows| && s.t.rows[i] == Next(p, s, step).t.rows[i]
  {
    HandleStep(p, s, step);
    var m, at := s.sent[step.flight.key], step.flight.at;
    if Stored(p, s, Next(p, s, step), m, step) {
      AcceptWrites(s.t, m, at, Pipeline.Run(step.reading), step.pick);
      assert i < |s.t.rows| ==> s.t.rows[i] == Next(p, s, step).t.rows[..|s.t.rows|][i];
    }
  }

  lemma ReprocessDecides(t: Tables, store: set<string>, k: nat, r: Pipeline.Reading, pick: Option<nat>, i: nat)
    requires var u := Review.Reprocess(t, store, k, Pipeline.Run(r), pick).0; i < |u.rows| && Review.Decided(u.rows[i])
    ensures i < |t.rows| && t.rows[i] == Review.Reprocess(t, store, k, Pipeline.Run(r), pick).0.rows[i]
  {
    if Review.Reprocessable(t, store, k, Pipeline.Run(r)) {
      Review.ApplySound(t.rows[k], r);
    }
  }

  // the decision the row shows
  function DecisionOf(row: Extraction, i: nat): Step {
    if row.status == Confirmed then Confirm(i, row.category) else Dismiss(i, row.reason)
  }

  /** In every run a confirmed or dismissed row was confirmed or dismissed by a step of the
      run, and carries the category or the reason given there. */
  lemma {:induction false} DecisionsWereMade(p: Policy, steps: seq<Step>, i: nat)
    requires Valid(p, START, steps) && i < |End(p, START, steps).t.rows|
    requires Review.Decided(End(p, START, steps).t.rows[i])
    ensures DecisionOf(End(p, START, steps).t.rows[i], i) in steps
    decreases |steps|
  {
    if steps == [] {
    } else {
      var front, n := steps[..|steps| - 1], |steps| - 1;
      LastStep(p, START, steps);
      StartGood(p);
      GoodRun(p, START, front);
      var s, row := End(p, START, front), End(p, START, steps).t.rows[i];
      if i < |s.t.rows| && s.t.rows[i] == row {
        DecisionsWereMade(p, front, i);
      }
      DecisionNow(p, s, steps, i);
    }
  }

  lemma DecisionNow(p: Policy, s: World, steps: seq<Step>, i: nat)
    requires steps != [] && Enabled(p, s, steps[|steps| - 1]) && RowsHaveMails(s.t)
    requires var u := Next(p, s, steps[|steps| - 1]).t;
             i < |u.rows| && Review.Decided(u.rows[i]) &&
             (i < |s.t.rows| && s.t.rows[i] == u.rows[i] ==> DecisionOf(u.rows[i], i) in steps[..|steps| - 1])
    ensures DecisionOf(Next(p, s, steps[|steps| - 1]).t.rows[i], i) in steps
  {
    DecidedIn(p, s, steps[|steps| - 1], i);
  }

  /** Over any run: deadlines are write-once, a nulled pointer stays nulled, a confirmed
      or dismissed row and a delivered or failed event never change again. */
  lemma {:induction false} DecisionsAreFinal(p: Policy, s: World, steps: seq<Step>)
    requires Good(p, s) && Valid(p, s, steps)
    ensures Frozen(s.t, End(p, s, steps).t)
    decreases |steps|
  {
    if steps == [] {
    } else {
      FrozenStep(p, s, steps[0]);
      GoodStep(p, s, steps[0]);
      DecisionsAreFinal(p, Next(p, s, steps[0]), steps[1..]);
      FrozenTransitive(s.t, Next(p, s, steps[0]).t, End(p, s, steps).t);
    }
  }

  /** The review lifecycle and the duplicate flags, after any run. */
  lemma ReviewHolds(p: Policy, steps: seq<Step>, i: nat)
    requires Valid(p, START, steps) && i < |End(p, START, steps).t.rows|
    ensures var t := End(p, START, steps).t;
            && Review.RowSound(t.rows[i])
            && t.rows[i].email < |t.emails|
            && ReviewRuns.MailAgrees(t.rows[i], t.emails[t.rows[i].email])
            && t.rows[i].flagged <= 1 && |Review.MatchesOf(t.matches, i)| == t.rows[i].flagged
            && forall m :: m in t.matches && m.extraction == i ==>
                 m.candidate < |t.rows| && m.candidate != i && t.rows[m.candidate].user == t.rows[i].user
  {
    StartGood(p);
    GoodRun(p, START, steps);
  }

  // ---- deliveries to receivers ---------------------------------------------------------------

  /** Per-key routing end to end: every POST for an event of an alias created by key K
      went to a config of K that is the latest of K in a table read after the POST's
      batch began. So no config of K registered by then and newer is passed over, and no
      other key's config is used. */
  lemma PostsFollowTheKey(p: Policy, steps: seq<Step>, k: nat, try: Try)
    requires Valid(p, START, steps) && k < |End(p, START, steps).t.outbox|
    requires var e := End(p, START, steps).t.outbox[k]; try in e.tries + e.lost
    ensures var s := End(p, START, steps); var e := s.t.outbox[k];
            && e.alias in s.t.aliases && try.since <= try.seen <= |s.configs|
            && SentToLatest(s.configs, s.t.aliases[e.alias].apiKey, try)
  {
    StartGood(p);
    GoodRun(p, START, steps);
    var s := End(p, START, steps);
    var key := s.t.outbox[k].apiKey;
    assert Outbox.Intact(s.t.outbox[k], s.configs);
    LatestWasSent(s.configs, key, try, Outbox.Newest(s.configs[..try.seen], key).value);
  }

  // the receiver of a POST: a config its key may use, at least as new as every config of
  // the key that was registered when the batch began
  predicate SentToLatest(configs: seq<Config>, apiKey: Option<nat>, try: Try) {
    exists j :: 0 <= j < try.seen && j < |configs| && configs[j].url == try.url && Outbox.Matches(configs[j], apiKey) &&
      forall i :: 0 <= i < try.since && i < |configs| && Outbox.Matches(configs[i], apiKey) ==>
        configs[i].createdAt <= configs[j].createdAt
  }

  lemma LatestWasSent(configs: seq<Config>, apiKey: Option<nat>, try: Try, j: nat)
    requires try.since <= try.seen <= |configs| && Outbox.Latest(configs[..try.seen], apiKey, j)
             && configs[j].url == try.url
    ensures SentToLatest(configs, apiKey, try)
  {
    assert configs[..try.seen][j] == configs[j];
    forall i | 0 <= i < try.since && Outbox.Matches(configs[i], apiKey)
      ensures configs[i].createdAt <= configs[j].createdAt {
      assert configs[..try.seen][i] == configs[i];
    }
  }

  /** The delivery state of every event, after any run with crashes; an event is given
      up no sooner than the four backoffs after the batch of its first recorded attempt
      began, and no sooner than the last three after that batch ended. */
  lemma DeliveriesSound(p: Policy, steps: seq<Step>, k: nat)
    requires Valid(p, START, steps) && k < |End(p, START, steps).t.outbox|
    ensures var e := End(p, START, steps).t.outbox[k];
            && Outbox.Sound(e)
            && (e.status == GivenUp ==>
                  && e.tries[4].at - e.tries[0].at >= 60 + 300 + 900 + 3600
                  && e.tries[4].at - e.tries[0].ended >= 60 + 300 + 900 + 3600 - (e.tries[0].ended - e.tries[0].at)
                  && e.tries[4].at - e.tries[0].ended >= 300 + 900 + 3600)
  {
    StartGood(p);
    GoodRun(p, START, steps);
    var e := End(p, START, steps).t.outbox[k];
    assert Outbox.Intact(e, End(p, START, steps).configs);
    if e.status == GivenUp {
      Outbox.GivenUpTakesTime(e);
    }
  }

  predicate NoneLost(events: seq<Event>) {
    forall k :: 0 <= k < |events| ==> events[k].lost == []
  }

  lemma NoneLostStep(p: Policy, s: World, step: Step)
    requires Enabled(p, s, step) && !step.PollCrash? && NoneLost(s.t.outbox)
    ensures NoneLost(Next(p, s, step).t.outbox)
  {
    OutboxRuns.OutboxGrows(p, s, step);
    OutboxRuns.NewEventsBare(p, s, step);
    if step.Poll? {
      OutboxRuns.OtherStepsQueue(p, s, step);
      Outbox.PolledKeepsLost(s.t.outbox, step.batch);
    }
  }

  /** Without a crash between a POST and its commit, the recorded attempts are all the
      POSTs a receiver has seen. */
  lemma {:induction false} PostsAreRecorded(p: Policy, s: World, steps: seq<Step>)
    requires Valid(p, s, steps) && NoneLost(s.t.outbox)
    requires forall i :: 0 <= i < |steps| ==> !steps[i].PollCrash?
    ensures NoneLost(End(p, s, steps).t.outbox)
    decreases |steps|
  {
    if steps == [] {
    } else {
      NoneLostStep(p, s, steps[0]);
      assert forall i :: 0 <= i < |steps[1..]| ==> steps[1..][i] == steps[i + 1];
      PostsAreRecorded(p, Next(p, s, steps[0]), steps[1..]);
    }
  }
}
