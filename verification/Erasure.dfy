/** User deletion over whole runs: every raw mail of an erased user has a deadline,
    and no raw mail is purged before its time. */
module Erasure {
  import opened Common
  import opened Schema
  import opened Ingest
  import opened World
  import opened Frames
  import Privacy

  predicate MailsHaveAliases(t: Tables) {
    forall i :: 0 <= i < |t.emails| ==> t.emails[i].alias in t.aliases
  }

  // nothing of the user is accepted any more, and what is kept has a deadline
  predicate ErasedUser(t: Tables, user: string) {
    && (forall a :: a in t.aliases && t.aliases[a].user == user ==> !t.aliases[a].active)
    && (forall i :: 0 <= i < |t.emails| && Privacy.BelongsTo(t, t.emails[i], user) && t.emails[i].key.Some? ==>
          t.emails[i].deadline.Some?)
  }

  predicate ErasedSound(s: World) {
    forall u :: u in s.erased ==> ErasedUser(s.t, u)
  }

  lemma KeptErased(a: Tables, b: Tables, nulled: set<nat>, user: string)
    requires TablesKept(a, b, nulled) && ErasedUser(a, user) && MailsHaveAliases(a)
    requires forall x :: x in b.aliases && b.aliases[x].user == user ==> x in a.aliases
    ensures ErasedUser(b, user)
  {
    forall i | 0 <= i < |b.emails| && Privacy.BelongsTo(b, b.emails[i], user) && b.emails[i].key.Some?
      ensures b.emails[i].deadline.Some?
    {
      assert SameMail(a.emails[i], b.emails[i], i in nulled);
      assert Privacy.BelongsTo(a, a.emails[i], user);
    }
  }

  // who is counted as erased after a step, and where new aliases come from
  lemma ErasedUsers(p: Policy, s: World, step: Step)
    requires Enabled(p, s, step)
    ensures var s' := Next(p, s, step);
            && (step.EraseUser? ==>
                  s'.erased == s.erased + {step.user} && s'.t == Privacy.Schedule(s.t, step.user, s.clock + p.grace))
            && (!step.EraseUser? ==> s'.erased <= s.erased)
            && (!step.Handle? ==> forall x :: x in s'.t.aliases && x !in s.t.aliases ==>
                  s'.t.aliases[x].user !in s'.erased)
            && (step.Handle? ==> s'.erased == s.erased)
  {
  }

  lemma DeliveryErased(p: Policy, s: World, s': World, f: Flight)
    requires f.key in s.sent && DeliveryOf(p, s, s', f) && ErasedSound(s) && MailsHaveAliases(s.t)
    ensures ErasedSound(s')
  {
    forall u | u in s'.erased ensures ErasedUser(s'.t, u) {
      assert ErasedUser(s.t, u);
      forall i | 0 <= i < |s'.t.emails| && Privacy.BelongsTo(s'.t, s'.t.emails[i], u) && s'.t.emails[i].key.Some?
        ensures s'.t.emails[i].deadline.Some?
      {
        assert i < |s.t.emails| ==> s'.t.emails[i] == s.t.emails[i] && Privacy.BelongsTo(s.t, s.t.emails[i], u);
      }
    }
  }

  lemma ErasedStep(p: Policy, s: World, step: Step)
    requires Enabled(p, s, step) && RowsHaveMails(s.t) && ErasedSound(s) && MailsHaveAliases(s.t)
    ensures ErasedSound(Next(p, s, step))
  {
    var s' := Next(p, s, step);
    ErasedUsers(p, s, step);
    if step.Handle? {
      DeliveryStep(p, s, step);
      DeliveryErased(p, s, s', step.flight);
    } else {
      OtherSteps(p, s, step);
      OthersErased(p, s, s', step);
    }
  }

  lemma OthersErased(p: Policy, s: World, s': World, step: Step)
    requires TablesKept(s.t, s'.t, NulledBy(step)) && ErasedSound(s) && MailsHaveAliases(s.t)
    requires step.EraseUser? ==>
               s'.erased == s.erased + {step.user} && s'.t == Privacy.Schedule(s.t, step.user, s.clock + p.grace)
    requires !step.EraseUser? ==> s'.erased <= s.erased
    requires forall x :: x in s'.t.aliases && x !in s.t.aliases ==> s'.t.aliases[x].user !in s'.erased
    ensures ErasedSound(s')
  {
    if step.EraseUser? {
      Privacy.ScheduleCompletes(s.t, step.user, s.clock + p.grace, 0);
    }
    forall u | u in s'.erased && u in s.erased ensures ErasedUser(s'.t, u) {
      KeptErased(s.t, s'.t, NulledBy(step), u);
    }
  }

  // ---- the purge comes in time, never early ------------------------------------------------

  // the reasons the two sweeps know, without the pointer they null
  predicate TimeHasCome(p: Policy, mail: Email, now: int) {
    || (mail.deadline.Some? && mail.deadline.value <= now)
    || (mail.receivedAt.Some? && mail.receivedAt.value < now - p.retention)
  }

  predicate PurgedInTime(p: Policy, s: World) {
    && (forall i :: 0 <= i < |s.t.emails| && s.t.emails[i].key.None? ==> TimeHasCome(p, s.t.emails[i], s.clock))
    && (forall i :: i in s.purging ==> i < |s.t.emails| && TimeHasCome(p, s.t.emails[i], s.clock))
  }

  lemma ClockAndSweeps(p: Policy, s: World, step: Step)
    requires Enabled(p, s, step)
    ensures var s' := Next(p, s, step);
            && s.clock <= s'.clock
            && (!step.PurgeObject? ==> s'.purging <= s.purging)
            && (step.PurgeObject? ==> s'.purging == s.purging + {step.mail} && step.mail < |s.t.emails|)
            && (step.PurgeObject? ==> s'.t == s.t && PurgeDue(p, s.t.emails[step.mail], s.clock))
            && NulledBy(step) <= (if step.PurgeCommit? then s.purging else {})
  {
  }

  lemma KeptInTime(p: Policy, s: World, s': World, nulled: set<nat>)
    requires MailsKept(s.t.emails, s'.t.emails, nulled) && s.clock <= s'.clock && PurgedInTime(p, s)
    requires nulled <= s.purging
    requires forall i :: i in s'.purging && i !in s.purging ==>
               i < |s.t.emails| && TimeHasCome(p, s.t.emails[i], s.clock)
    ensures PurgedInTime(p, s')
  {
    forall i | 0 <= i < |s'.t.emails| && (s'.t.emails[i].key.None? || i in s'.purging)
      ensures TimeHasCome(p, s'.t.emails[i], s'.clock)
    {
      assert SameMail(s.t.emails[i], s'.t.emails[i], i in nulled);
    }
  }

  lemma DeliveryInTime(p: Policy, s: World, s': World, f: Flight)
    requires f.key in s.sent && DeliveryOf(p, s, s', f) && PurgedInTime(p, s)
    ensures PurgedInTime(p, s')
  {
    forall i | 0 <= i < |s.t.emails| ensures s'.t.emails[i] == s.t.emails[i] {
    }
  }

  lemma InTimeStep(p: Policy, s: World, step: Step)
    requires Enabled(p, s, step) && RowsHaveMails(s.t) && PurgedInTime(p, s)
    ensures PurgedInTime(p, Next(p, s, step))
  {
    if step.Handle? {
      DeliveryStep(p, s, step);
      DeliveryInTime(p, s, Next(p, s, step), step.flight);
    } else {
      OtherSteps(p, s, step);
      ClockAndSweeps(p, s, step);
      KeptInTime(p, s, Next(p, s, step), NulledBy(step));
    }
  }
}
