/** User deletion and the purge of raw mails, as functions on the tables. */
module Privacy {
  import opened Common
  import opened Schema

  predicate BelongsTo(t: Tables, mail: Email, user: string) {
    mail.alias in t.aliases && t.aliases[mail.alias].user == user
  }

  // schedule_user_deletion
  function Schedule(t: Tables, user: string, deadline: int): Tables {
    t.(aliases := map a | a in t.aliases ::
           if t.aliases[a].user == user then t.aliases[a].(active := false) else t.aliases[a],
       emails := seq(|t.emails|, i requires 0 <= i < |t.emails| =>
           var mail := t.emails[i];
           if BelongsTo(t, mail, user) && mail.key.Some? && mail.deadline.None?
           then mail.(deadline := Some(deadline)) else mail))
  }

  // the two queries the sweeps run
  predicate DeletionDue(mail: Email, now: int) {
    mail.key.Some? && mail.deadline.Some? && mail.deadline.value <= now
  }

  predicate RetentionDue(mail: Email, cutoff: int) {
    mail.key.Some? && mail.receivedAt.Some? && mail.receivedAt.value < cutoff
  }

  function NullKeys(emails: seq<Email>, ids: set<nat>): (r: seq<Email>)
    ensures |r| == |emails|
  {
    seq(|emails|, i requires 0 <= i < |emails| =>
      if i in ids then emails[i].(key := None) else emails[i])
  }

  /** After the call every mail of the user that still has an object carries a
      deadline and no alias of the user accepts mail; a second call changes nothing, and
      neither the aliases nor the mails of anybody else change. */
  lemma ScheduleCompletes(t: Tables, user: string, deadline: int, later: int)
    ensures var s := Schedule(t, user, deadline);
            && s == t.(aliases := s.aliases, emails := s.emails) && s.aliases.Keys == t.aliases.Keys
            && (forall a :: a in t.aliases && t.aliases[a].user != user ==> s.aliases[a] == t.aliases[a])
            && (forall a :: a in t.aliases && t.aliases[a].user == user ==>
                  s.aliases[a] == t.aliases[a].(active := false))
            && (forall i :: 0 <= i < |s.emails| && BelongsTo(s, s.emails[i], user) && s.emails[i].key.Some? ==>
                  s.emails[i].deadline.Some?)
            && (forall i :: 0 <= i < |t.emails| && t.emails[i].deadline.Some? ==> s.emails[i] == t.emails[i])
            && (forall i :: 0 <= i < |t.emails| ==> s.emails[i] == t.emails[i].(deadline := s.emails[i].deadline))
            && |s.emails| == |t.emails|
            && (forall i :: 0 <= i < |t.emails| && t.emails[i].deadline != s.emails[i].deadline ==>
                  s.emails[i].deadline == Some(deadline) && t.emails[i].key.Some?)
            && (forall i :: 0 <= i < |t.emails| && !BelongsTo(t, t.emails[i], user) ==> s.emails[i] == t.emails[i])
            && Schedule(s, user, later) == s
  {
    var s := Schedule(t, user, deadline);
    assert Schedule(s, user, later).aliases == s.aliases;
    assert Schedule(s, user, later).emails == s.emails;
  }
}
