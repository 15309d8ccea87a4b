/** The deletion promise end to end: from the user's request over any run to the sweep
    after the grace period. */
module Deletion {
  import opened Common
  import opened Schema
  import opened Ingest
  import opened World
  import opened Runs
  import opened Frames
  import opened Erasure
  import opened Exactness
  import opened Theorems
  import Privacy
  import PrivacyService

  // no deadline lies further away than the grace period
  predicate DeadlinesNear(p: Policy, s: World) {
    forall i :: 0 <= i < |s.t.emails| && s.t.emails[i].deadline.Some? ==>
      s.t.emails[i].deadline.value <= s.clock + p.grace
  }

  // only a deletion request writes deadlines, and a new mail has none
  lemma DeadlineWrites(p: Policy, s: World, step: Step)
    requires Enabled(p, s, step) && !step.EraseUser? && !step.Handle?
    ensures var s' := Next(p, s, step);
            && s.clock <= s'.clock && |s'.t.emails| == |s.t.emails|
            && forall i :: 0 <= i < |s.t.emails| ==> s'.t.emails[i].deadline == s.t.emails[i].deadline
  {
  }

  lemma DeadlinesNearStep(p: Policy, s: World, step: Step)
    requires Enabled(p, s, step) && DeadlinesNear(p, s)
    ensures DeadlinesNear(p, Next(p, s, step))
  {
    var s' := Next(p, s, step);
    if step.Handle? {
      DeliveryStep(p, s, step);
      assert forall i :: 0 <= i < |s.t.emails| ==> s'.t.emails[i] == s.t.emails[i];
    } else if step.EraseUser? {
      Privacy.ScheduleCompletes(s.t, step.user, s.clock + p.grace, 0);
    } else {
      DeadlineWrites(p, s, step);
    }
  }

  lemma {:induction false} DeadlinesNearRun(p: Policy, s: World, steps: seq<Step>)
    requires Valid(p, s, steps) && DeadlinesNear(p, s)
    ensures DeadlinesNear(p, End(p, s, steps))
    decreases |steps|
  {
    if steps == [] {
    } else {
      DeadlinesNearStep(p, s, steps[0]);
      DeadlinesNearRun(p, Next(p, s, steps[0]), steps[1..]);
    }
  }

  // every raw mail of the user is due by then
  predicate DueBy(t: Tables, user: string, time: int) {
    forall i :: 0 <= i < |t.emails| && Privacy.BelongsTo(t, t.emails[i], user) && t.emails[i].key.Some? ==>
      t.emails[i].deadline.Some? && t.emails[i].deadline.value <= time
  }

  lemma KeptDueBy(a: Tables, b: Tables, nulled: set<nat>, user: string, time: int)
    requires TablesKept(a, b, nulled) && DueBy(a, user, time) && MailsHaveAliases(a)
    requires forall x :: x in b.aliases && b.aliases[x].user == user ==> x in a.aliases
    ensures DueBy(b, user, time)
  {
    forall i | 0 <= i < |b.emails| && Privacy.BelongsTo(b, b.emails[i], user) && b.emails[i].key.Some?
      ensures b.emails[i].deadline.Some? && b.emails[i].deadline.value <= time
    {
      assert SameMail(a.emails[i], b.emails[i], i in nulled);
      assert Privacy.BelongsTo(a, a.emails[i], user);
    }
  }

  lemma DeliveryDueBy(p: Policy, s: World, s': World, f: Flight, user: string, time: int)
    requires f.key in s.sent && DeliveryOf(p, s, s', f) && ErasedUser(s.t, user)
    requires DueBy(s.t, user, time)
    ensures DueBy(s'.t, user, time)
  {
    forall i | 0 <= i < |s'.t.emails| && Privacy.BelongsTo(s'.t, s'.t.emails[i], user) && s'.t.emails[i].key.Some?
      ensures s'.t.emails[i].deadline.Some? && s'.t.emails[i].deadline.value <= time
    {
      assert i < |s.t.emails| ==> s'.t.emails[i] == s.t.emails[i] && Privacy.BelongsTo(s.t, s.t.emails[i], user);
    }
  }

  lemma DueByStep(p: Policy, s: World, step: Step, user: string, time: int)
    requires Good(p, s) && Enabled(p, s, step) && user in s.erased && (step.CreateAlias? ==> step.user != user)
    requires DueBy(s.t, user, time)
    ensures DueBy(Next(p, s, step).t, user, time)
  {
    if step.Handle? {
      DeliveryStep(p, s, step);
      DeliveryDueBy(p, s, Next(p, s, step), step.flight, user, time);
    } else {
      OtherSteps(p, s, step);
      ErasedUsers(p, s, step);
      ErasedKept(p, s, step, user);
      KeptDueBy(s.t, Next(p, s, step).t, NulledBy(step), user, time);
    }
  }

  lemma {:induction false} DueByRun(p: Policy, s: World, steps: seq<Step>, user: string, time: int)
    requires Good(p, s) && Valid(p, s, steps) && NoNewAlias(steps, user) && user in s.erased
    requires DueBy(s.t, user, time)
    ensures DueBy(End(p, s, steps).t, user, time)
    decreases |steps|
  {
    if steps == [] {
    } else {
      NoNewAliasTail(steps, user);
      DueByStep(p, s, steps[0], user, time);
      GoodStep(p, s, steps[0]);
      ErasedKept(p, s, steps[0], user);
      DueByRun(p, Next(p, s, steps[0]), steps[1..], user, time);
    }
  }

  lemma DueOnceScheduled(t: Tables, user: string, deadline: int)
    requires forall i :: 0 <= i < |t.emails| && t.emails[i].deadline.Some? ==> t.emails[i].deadline.value <= deadline
    ensures DueBy(Privacy.Schedule(t, user, deadline), user, deadline)
  {
    Privacy.ScheduleCompletes(t, user, deadline, 0);
  }

  lemma DueAfterRequest(p: Policy, s: World, user: string)
    requires DeadlinesNear(p, s)
    ensures DueBy(Next(p, s, EraseUser(user)).t, user, s.clock + p.grace)
    ensures user in Next(p, s, EraseUser(user)).erased
  {
    DueOnceScheduled(s.t, user, s.clock + p.grace);
  }

  lemma DueAfterRun(p: Policy, s: World, user: string, after: seq<Step>)
    requires Good(p, s) && DeadlinesNear(p, s)
    requires Valid(p, Next(p, s, EraseUser(user)), after) && NoNewAlias(after, user)
    ensures DueBy(End(p, Next(p, s, EraseUser(user)), after).t, user, s.clock + p.grace)
  {
    DueAfterRequest(p, s, user);
    GoodStep(p, s, EraseUser(user));
    DueByRun(p, Next(p, s, EraseUser(user)), after, user, s.clock + p.grace);
  }

  lemma ReachedGood(p: Policy, before: seq<Step>)
    requires Valid(p, START, before)
    ensures Good(p, End(p, START, before)) && DeadlinesNear(p, End(p, START, before))
  {
    StartGood(p);
    GoodRun(p, START, before);
    DeadlinesNearRun(p, START, before);
  }

  // ---- the sweep, among everything else ------------------------------------------------------

  // some sweep commits the purge of mail i
  predicate Purged(steps: seq<Step>, i: nat) {
    exists j :: 0 <= j < |steps| && steps[j].PurgeCommit? && i in steps[j].mails
  }

  lemma PurgedFirstOrLater(steps: seq<Step>, i: nat)
    requires steps != []
    ensures Purged(steps, i) <==> (steps[0].PurgeCommit? && i in steps[0].mails) || Purged(steps[1..], i)
  {
    assert forall j :: 0 < j < |steps| ==> steps[j] == steps[1..][j - 1];
    if Purged(steps[1..], i) {
      var j :| 0 <= j < |steps[1..]| && steps[1..][j].PurgeCommit? && i in steps[1..][j].mails;
      assert steps[j + 1] == steps[1..][j];
    }
  }

  // the raw mails of an erased user can only become fewer
  predicate RawOf(t: Tables, user: string, i: nat) {
    i < |t.emails| && Privacy.BelongsTo(t, t.emails[i], user) && t.emails[i].key.Some?
  }

  lemma KeptRaw(a: Tables, b: Tables, nulled: set<nat>, user: string, i: nat)
    requires TablesKept(a, b, nulled) && MailsHaveAliases(a) && RawOf(b, user, i)
    requires forall x :: x in b.aliases && b.aliases[x].user == user ==> x in a.aliases
    ensures RawOf(a, user, i) && i !in nulled
  {
    assert SameMail(a.emails[i], b.emails[i], i in nulled);
  }

  lemma DeliveryRaw(p: Policy, s: World, s': World, f: Flight, user: string, i: nat)
    requires f.key in s.sent && DeliveryOf(p, s, s', f) && ErasedUser(s.t, user) && RawOf(s'.t, user, i)
    ensures RawOf(s.t, user, i)
  {
    assert i < |s.t.emails| ==> s'.t.emails[i] == s.t.emails[i];
  }

  lemma RawStep(p: Policy, s: World, step: Step, user: string, i: nat)
    requires Good(p, s) && Enabled(p, s, step) && user in s.erased && (step.CreateAlias? ==> step.user != user)
    requires RawOf(Next(p, s, step).t, user, i)
    ensures RawOf(s.t, user, i) && !(step.PurgeCommit? && i in step.mails)
  {
    if step.Handle? {
      DeliveryStep(p, s, step);
      DeliveryRaw(p, s, Next(p, s, step), step.flight, user, i);
    } else {
      OtherSteps(p, s, step);
      ErasedUsers(p, s, step);
      ErasedKept(p, s, step, user);
      KeptRaw(s.t, Next(p, s, step).t, NulledBy(step), user, i);
    }
  }

  lemma {:induction false} RawRun(p: Policy, s: World, steps: seq<Step>, user: string, i: nat)
    requires Good(p, s) && Valid(p, s, steps) && NoNewAlias(steps, user) && user in s.erased
    requires RawOf(End(p, s, steps).t, user, i)
    ensures RawOf(s.t, user, i) && !Purged(steps, i)
    decreases |steps|
  {
    if steps == [] {
    } else {
      NoNewAliasTail(steps, user);
      GoodStep(p, s, steps[0]);
      ErasedKept(p, s, steps[0], user);
      RawRun(p, Next(p, s, steps[0]), steps[1..], user, i);
      RawStep(p, s, steps[0], user, i);
      PurgedFirstOrLater(steps, i);
    }
  }

  // a sweep without failures: whatever matches as it begins, it purges
  predicate SweepsAll(emails: seq<Email>, query: PrivacyService.Query, steps: seq<Step>) {
    forall i :: i in PrivacyService.Matching(emails, query) ==> Purged(steps, i)
  }

  predicate Sweeps(s: World, steps: seq<Step>) {
    SweepsAll(s.t.emails, PrivacyService.PendingDeletion(s.clock), steps)
  }

  lemma DueIsMatched(s: World, user: string, time: int, i: nat)
    requires DueBy(s.t, user, time) && time <= s.clock && RawOf(s.t, user, i)
    ensures i in PrivacyService.Matching(s.t.emails, PrivacyService.PendingDeletion(s.clock))
  {
  }

  /** After a deletion request, whatever runs before, during and after short of a new
      alias, one sweep without failures that begins once the grace period is over leaves
      no raw mail of the user: no pointer and no stored object. Its object deletions and
      commits may interleave with every other step. */
  lemma DeletionFinishes(p: Policy, before: seq<Step>, s: World, user: string,
                    after: seq<Step>, s': World, sweep: seq<Step>)
    requires Valid(p, START, before) && s == End(p, START, before)
    requires Valid(p, Next(p, s, EraseUser(user)), after) && s' == End(p, Next(p, s, EraseUser(user)), after)
    requires NoNewAlias(after, user) && NoNewAlias(sweep, user) && s'.clock >= s.clock + p.grace
    requires Valid(p, s', sweep) && Sweeps(s', sweep)
    ensures var t := End(p, s', sweep).t;
            forall i :: 0 <= i < |t.emails| && Privacy.BelongsTo(t, t.emails[i], user) ==>
              t.emails[i].key.None? && t.emails[i].origin !in End(p, s', sweep).store
  {
    ReachedGood(p, before);
    DueAfterRun(p, s, user, after);
    ErasedAfterRun(p, s, user, after);
    SweepLeavesNone(p, s', user, s.clock + p.grace, sweep);
    GoodRun(p, s', sweep);
    NulledAreDeleted(End(p, s', sweep));
  }

  // an object goes before its pointer
  lemma NulledAreDeleted(s: World)
    requires MailsSound(s)
    ensures forall i :: 0 <= i < |s.t.emails| && s.t.emails[i].key.None? ==> s.t.emails[i].origin !in s.store
  {
    forall i | 0 <= i < |s.t.emails| && s.t.emails[i].key.None? ensures s.t.emails[i].origin !in s.store {
      assert MailSound(s.sent, s.store, s.t.emails[i]);
    }
  }

  lemma SweepLeavesNone(p: Policy, s: World, user: string, time: int, sweep: seq<Step>)
    requires Good(p, s) && user in s.erased && DueBy(s.t, user, time) && time <= s.clock
    requires Valid(p, s, sweep) && NoNewAlias(sweep, user) && Sweeps(s, sweep)
    ensures var t := End(p, s, sweep).t;
            forall i :: 0 <= i < |t.emails| && Privacy.BelongsTo(t, t.emails[i], user) ==> t.emails[i].key.None?
  {
    var t := End(p, s, sweep).t;
    forall i | 0 <= i < |t.emails| && Privacy.BelongsTo(t, t.emails[i], user) ensures t.emails[i].key.None? {
      if RawOf(t, user, i) {
        RawRun(p, s, sweep, user, i);
        DueIsMatched(s, user, time, i);
      }
    }
  }

  lemma ErasedAfterRun(p: Policy, s: World, user: string, after: seq<Step>)
    requires Good(p, s) && Valid(p, Next(p, s, EraseUser(user)), after) && NoNewAlias(after, user)
    ensures var s' := End(p, Next(p, s, EraseUser(user)), after); Good(p, s') && user in s'.erased
  {
    GoodStep(p, s, EraseUser(user));
    GoodRun(p, Next(p, s, EraseUser(user)), after);
    ErasedUsers(p, s, EraseUser(user));
    StaysErased(p, Next(p, s, EraseUser(user)), after, user);
  }

  // ---- the drain is such a sweep ----------------------------------------------------------------

  // the queries of the two sweeps at that moment
  predicate Timely(p: Policy, s: World, query: PrivacyService.Query) {
    query == PrivacyService.PendingDeletion(s.clock) || query == PrivacyService.Retention(s.clock - p.retention)
  }

  predicate OnlyPurges(steps: seq<Step>) {
    forall j :: 0 <= j < |steps| ==> steps[j].PurgeObject? || steps[j].PurgeCommit?
  }

  lemma PurgeObjectMoves(p: Policy, s: World, query: PrivacyService.Query, i: nat)
    requires Timely(p, s, query) && i in PrivacyService.Matching(s.t.emails, query)
    ensures Enabled(p, s, PurgeObject(i))
    ensures var s' := Next(p, s, PurgeObject(i));
            && s'.t == s.t && s'.clock == s.clock && s'.purging == s.purging + {i}
            && s.t.emails[i].key.Some? && s'.store == s.store - {s.t.emails[i].key.value}
  {
  }

  lemma PurgeCommits(p: Policy, s: World, ids: set<nat>)
    requires ids <= s.purging
    ensures Valid(p, s, [PurgeCommit(ids)]) && OnlyPurges([PurgeCommit(ids)])
    ensures End(p, s, [PurgeCommit(ids)]).t == s.t.(emails := Privacy.NullKeys(s.t.emails, ids))
    ensures End(p, s, [PurgeCommit(ids)]).store == s.store
    ensures forall i :: i in ids ==> Purged([PurgeCommit(ids)], i)
  {
    var steps := [PurgeCommit(ids)];
    assert Valid(p, Next(p, s, steps[0]), steps[1..]);
    assert steps[0].PurgeCommit?;
  }

  lemma PurgeFirst(p: Policy, s: World, i: nat, rest: seq<Step>, ids: set<nat>)
    requires Enabled(p, s, PurgeObject(i)) && Valid(p, Next(p, s, PurgeObject(i)), rest) && OnlyPurges(rest)
    requires forall k :: k in ids ==> Purged(rest, k)
    ensures Valid(p, s, [PurgeObject(i)] + rest) && OnlyPurges([PurgeObject(i)] + rest)
    ensures End(p, s, [PurgeObject(i)] + rest) == End(p, Next(p, s, PurgeObject(i)), rest)
    ensures forall k :: k in ids ==> Purged([PurgeObject(i)] + rest, k)
  {
    var steps := [PurgeObject(i)] + rest;
    assert steps[1..] == rest;
    forall k | k in ids ensures Purged(steps, k) {
      PurgedFirstOrLater(steps, k);
    }
  }

  lemma NoMoreToDo(emails: seq<Email>, done: set<nat>)
    ensures {} + done == done && PrivacyService.KeysOf(emails, {}) == {}
  {
  }

  lemma KeyFirst(emails: seq<Email>, ids: set<nat>, i: nat)
    requires i in ids && i < |emails| && emails[i].key.Some?
    ensures PrivacyService.KeysOf(emails, ids) == {emails[i].key.value} + PrivacyService.KeysOf(emails, ids - {i})
  {
  }

  lemma PurgeEnds(p: Policy, s: World, done: set<nat>)
    requires done <= s.purging
    ensures var steps := [PurgeCommit(done)];
            && Valid(p, s, steps) && OnlyPurges(steps)
            && End(p, s, steps).t == s.t.(emails := Privacy.NullKeys(s.t.emails, {} + done))
            && End(p, s, steps).store == s.store - PrivacyService.KeysOf(s.t.emails, {})
            && forall i :: i in {} + done ==> Purged(steps, i)
  {
    PurgeCommits(p, s, done);
    NoMoreToDo(s.t.emails, done);
  }

  // the objects of all those mails go, one step each, then one commit nulls the pointers
  lemma {:induction false} PurgeSteps(p: Policy, s: World, query: PrivacyService.Query, todo: set<nat>, done: set<nat>)
    returns (steps: seq<Step>)
    requires Timely(p, s, query) && todo + done <= PrivacyService.Matching(s.t.emails, query) && done <= s.purging
    ensures Valid(p, s, steps) && OnlyPurges(steps)
    ensures End(p, s, steps).t == s.t.(emails := Privacy.NullKeys(s.t.emails, todo + done))
    ensures End(p, s, steps).store == s.store - PrivacyService.KeysOf(s.t.emails, todo)
    ensures forall i :: i in todo + done ==> Purged(steps, i)
    decreases |todo|
  {
    if todo == {} {
      steps := [PurgeCommit(done)];
      PurgeEnds(p, s, done);
    } else {
      var i :| i in todo;
      PurgeObjectMoves(p, s, query, i);
      var s' := Next(p, s, PurgeObject(i));
      NextToDo(s.t.emails, todo, done, i);
      var rest := PurgeSteps(p, s', query, todo - {i}, done + {i});
      PurgeFirst(p, s, i, rest, todo + done);
      steps := [PurgeObject(i)] + rest;
    }
  }

  lemma NextToDo(emails: seq<Email>, todo: set<nat>, done: set<nat>, i: nat)
    requires i in todo && i < |emails| && emails[i].key.Some?
    ensures todo - {i} + (done + {i}) == todo + done
    ensures PrivacyService.KeysOf(emails, todo) ==
            {emails[i].key.value} + PrivacyService.KeysOf(emails, todo - {i})
  {
    KeyFirst(emails, todo, i);
  }

  lemma SweptIsNulled(emails: seq<Email>, objects: set<string>, query: PrivacyService.Query, f: nat,
                      after: seq<Email>, left: set<string>, total: nat)
    requires PrivacyService.Swept(emails, objects, query, f, after, left, total)
    ensures after == Privacy.NullKeys(emails,
                    PrivacyService.Matching(emails, query) - PrivacyService.Matching(after, query))
  {
  }

  /** What either drain leaves, whatever failed in it, is what a run of purge steps leaves;
      and when nothing failed and at most 5000 mails matched, that run is a sweep without
      failures. */
  lemma DrainIsASweep(p: Policy, s: World, query: PrivacyService.Query, f: nat, emails: seq<Email>,
                      left: set<string>, total: nat)
    requires Timely(p, s, query) && PrivacyService.Swept(s.t.emails, s.store, query, f, emails, left, total)
    ensures exists steps :: Valid(p, s, steps) && OnlyPurges(steps) &&
              End(p, s, steps).t == s.t.(emails := emails) && End(p, s, steps).store == left &&
              (f == 0 && |PrivacyService.Matching(s.t.emails, query)| <= 5000 ==> SweepsAll(s.t.emails, query, steps))
  {
    var due, rest := PrivacyService.Matching(s.t.emails, query), PrivacyService.Matching(emails, query);
    SweptIsNulled(s.t.emails, s.store, query, f, emails, left, total);
    var steps := PurgeSteps(p, s, query, due - rest, {});
    assert due - rest + {} == due - rest;
  }

  // ---- retention ------------------------------------------------------------------------------

  lemma CommitNulls(p: Policy, s: World, step: Step, i: nat)
    requires Enabled(p, s, step) && step.PurgeCommit? && i in step.mails && i < |s.t.emails|
    ensures i < |Next(p, s, step).t.emails| && Next(p, s, step).t.emails[i].key.None?
  {
  }

  // a purged pointer is null from then on
  lemma {:induction false} PurgedRun(p: Policy, s: World, steps: seq<Step>, i: nat)
    requires Good(p, s) && Valid(p, s, steps) && i < |s.t.emails| && Purged(steps, i)
    ensures i < |End(p, s, steps).t.emails| && End(p, s, steps).t.emails[i].key.None?
    decreases |steps|
  {
    var s' := Next(p, s, steps[0]);
    GoodStep(p, s, steps[0]);
    PurgedFirstOrLater(steps, i);
    if Purged(steps[1..], i) {
      FrozenStep(p, s, steps[0]);
      PurgedRun(p, s', steps[1..], i);
    } else {
      CommitNulls(p, s, steps[0], i);
      DecisionsAreFinal(p, s', steps[1..]);
      assert MailFixed(s'.t.emails[i], End(p, s, steps).t.emails[i]);
    }
  }

  /** Retention, end to end: one sweep without failures, interleaved with anything, leaves
      neither pointer nor object of any mail received longer ago than the retention time
      when it began. */
  lemma RetentionFinishes(p: Policy, before: seq<Step>, s: World, sweep: seq<Step>, i: nat)
    requires Valid(p, START, before) && s == End(p, START, before)
    requires Valid(p, s, sweep) && SweepsAll(s.t.emails, PrivacyService.Retention(s.clock - p.retention), sweep)
    requires i < |s.t.emails| && s.t.emails[i].receivedAt.Some?
    requires s.t.emails[i].receivedAt.value + p.retention < s.clock
    ensures var s' := End(p, s, sweep);
            i < |s'.t.emails| && s'.t.emails[i].key.None? && s'.t.emails[i].origin !in s'.store
  {
    ReachedGood(p, before);
    GoodRun(p, s, sweep);
    NulledBySweep(p, s, PrivacyService.Retention(s.clock - p.retention), sweep, i);
    NulledAreDeleted(End(p, s, sweep));
  }

  lemma NulledBySweep(p: Policy, s: World, query: PrivacyService.Query, sweep: seq<Step>, i: nat)
    requires Good(p, s) && Valid(p, s, sweep) && SweepsAll(s.t.emails, query, sweep) && i < |s.t.emails|
    requires s.t.emails[i].key.Some? ==> query.Matches(s.t.emails[i])
    ensures i < |End(p, s, sweep).t.emails| && End(p, s, sweep).t.emails[i].key.None?
  {
    if s.t.emails[i].key.Some? {
      assert i in PrivacyService.Matching(s.t.emails, query);
      PurgedRun(p, s, sweep, i);
    } else {
      DecisionsAreFinal(p, s, sweep);
      assert MailFixed(s.t.emails[i], End(p, s, sweep).t.emails[i]);
    }
  }

  // ---- nothing is purged without a reason ---------------------------------------------------------

  // step n is the request of that user, and the grace period from it ends at `time`
  ghost predicate RequestedAt(p: Policy, steps: seq<Step>, n: nat, user: string, time: int) {
    && n < |steps| && steps[n] == EraseUser(user) && Valid(p, START, steps[..n])
    && End(p, START, steps[..n]).clock + p.grace == time
  }

  ghost predicate Requested(p: Policy, steps: seq<Step>, user: string, time: int) {
    exists n :: 0 <= n < |steps| && RequestedAt(p, steps, n, user, time)
  }

  lemma RequestedBefore(p: Policy, steps: seq<Step>, user: string, time: int)
    requires steps != [] && Requested(p, steps[..|steps| - 1], user, time)
    ensures Requested(p, steps, user, time)
  {
    var front := steps[..|steps| - 1];
    var n :| 0 <= n < |front| && RequestedAt(p, front, n, user, time);
    assert front[..n] == steps[..n] && front[n] == steps[n];
    assert RequestedAt(p, steps, n, user, time);
  }

  // every deadline is the end of the grace period of a request of the mail's owner
  ghost predicate DeadlinesRequested(p: Policy, steps: seq<Step>, t: Tables) {
    forall i :: 0 <= i < |t.emails| && t.emails[i].deadline.Some? ==>
      t.emails[i].alias in t.aliases &&
      Requested(p, steps, t.aliases[t.emails[i].alias].user, t.emails[i].deadline.value)
  }

  // where the deadline of a mail comes from in one step
  lemma DeadlineFrom(p: Policy, s: World, step: Step, i: nat)
    requires Enabled(p, s, step) && RowsHaveMails(s.t) && MailsHaveAliases(s.t)
    requires var t' := Next(p, s, step).t; i < |t'.emails| && t'.emails[i].deadline.Some?
    ensures var t' := Next(p, s, step).t; var mail := t'.emails[i];
            && i < |s.t.emails| && mail.alias in s.t.aliases && mail.alias in t'.aliases
            && t'.aliases[mail.alias].user == s.t.aliases[mail.alias].user && s.t.emails[i].alias == mail.alias
            && (s.t.emails[i].deadline == mail.deadline ||
                (step == EraseUser(s.t.aliases[mail.alias].user) && mail.deadline == Some(s.clock + p.grace)))
  {
    if step.Handle? {
      DeliveryStep(p, s, step);
    } else if step.EraseUser? {
      RequestWrites(s.t, step.user, s.clock + p.grace, i);
    } else {
      OtherSteps(p, s, step);
      assert SameMail(s.t.emails[i], Next(p, s, step).t.emails[i], i in NulledBy(step));
      DeadlineWrites(p, s, step);
    }
  }

  lemma RequestWrites(t: Tables, user: string, deadline: int, i: nat)
    requires i < |t.emails| && MailsHaveAliases(t)
    ensures var u := Privacy.Schedule(t, user, deadline); var mail := u.emails[i];
            && mail.alias == t.emails[i].alias && mail.alias in u.aliases
            && u.aliases[mail.alias].user == t.aliases[mail.alias].user
            && (mail.deadline == t.emails[i].deadline ||
                (t.aliases[mail.alias].user == user && mail.deadline == Some(deadline)))
  {
    Privacy.ScheduleCompletes(t, user, deadline, 0);
  }

  lemma DeadlinesRequestedStep(p: Policy, steps: seq<Step>, s: World)
    requires steps != [] && Valid(p, START, steps) && Valid(p, START, steps[..|steps| - 1])
    requires s == End(p, START, steps[..|steps| - 1]) && Enabled(p, s, steps[|steps| - 1])
    requires End(p, START, steps) == Next(p, s, steps[|steps| - 1])
    requires Good(p, s) && DeadlinesRequested(p, steps[..|steps| - 1], s.t)
    ensures DeadlinesRequested(p, steps, End(p, START, steps).t)
  {
    var t' := End(p, START, steps).t;
    var n := |steps| - 1;
    forall i | 0 <= i < |t'.emails| && t'.emails[i].deadline.Some?
      ensures t'.emails[i].alias in t'.aliases
      ensures Requested(p, steps, t'.aliases[t'.emails[i].alias].user, t'.emails[i].deadline.value)
    {
      DeadlineFrom(p, s, steps[n], i);
      var user := t'.aliases[t'.emails[i].alias].user;
      if s.t.emails[i].deadline == t'.emails[i].deadline {
        RequestedBefore(p, steps, user, t'.emails[i].deadline.value);
      } else {
        assert RequestedAt(p, steps, n, user, t'.emails[i].deadline.value);
      }
    }
  }

  lemma {:induction false} DeadlinesRequestedRun(p: Policy, steps: seq<Step>)
    requires Valid(p, START, steps)
    ensures DeadlinesRequested(p, steps, End(p, START, steps).t)
    decreases |steps|
  {
    if steps == [] {
    } else {
      var front := steps[..|steps| - 1];
      LastStep(p, START, steps);
      DeadlinesRequestedRun(p, front);
      ReachedGood(p, front);
      DeadlinesRequestedStep(p, steps, End(p, START, front));
    }
  }

  /** In every run a raw mail's pointer is nulled only for one of two reasons: its owner asked
      for deletion and the whole grace period from that request has passed, or it was received
      longer ago than the retention time. */
  lemma NothingPurgedUnasked(p: Policy, steps: seq<Step>, i: nat)
    requires Valid(p, START, steps) && i < |End(p, START, steps).t.emails|
    requires End(p, START, steps).t.emails[i].key.None?
    ensures var s := End(p, START, steps); var mail := s.t.emails[i];
            || (mail.receivedAt.Some? && mail.receivedAt.value + p.retention < s.clock)
            || (mail.alias in s.t.aliases &&
                exists end :: end <= s.clock && Requested(p, steps, s.t.aliases[mail.alias].user, end))
  {
    NothingPurgedEarly(p, steps, i);
    DeadlinesRequestedRun(p, steps);
    var s := End(p, START, steps);
    var mail := s.t.emails[i];
    if mail.deadline.Some? && mail.deadline.value <= s.clock {
      assert Requested(p, steps, s.t.aliases[mail.alias].user, mail.deadline.value);
    }
  }
}
