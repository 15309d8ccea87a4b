/** Who gets in. A mail's reply is decided by its alias, by that alias's own mails and by
    whether its key is taken; an alias is closed by its own deactivation or by its owner's
    deletion and by nothing else, and then for good. */
module Admission {
  import opened Common
  import opened Schema
  import opened Pipeline
  import opened Ingest
  import opened World
  import opened Runs
  import opened Frames
  import Theorems

  // ---- one mail ----------------------------------------------------------------------------

  /** What each reply means, on the tables as they are: a mail is accepted exactly when its
      alias is open, no row has its key, no mail of the alias has its Message-ID, the alias
      has fewer than `limit` mails in the window, and the object is there. */
  lemma ReplyExactly(p: Policy, t: Tables, store: set<string>, m: Message, at: int, now: int,
                     res: Result, pick: Option<nat>, deleteFails: bool)
    ensures var reply := Receive(p, t, store, m, at, now, res, pick, deleteFails).reply;
            var key := if |m.key| <= 512 then m.key else m.key[..512];
            var id := if |m.messageId| <= 998 then m.messageId else m.messageId[..998];
            var known := m.alias in t.aliases && t.aliases[m.alias].active;
            var taken := exists i :: 0 <= i < |t.emails| && t.emails[i].key == Some(key);
            var again := m.messageId != "" && exists i ::
                           0 <= i < |t.emails| && t.emails[i].alias == m.alias && t.emails[i].messageId == Some(id);
            var spent := p.limit > 0 &&
                         |set i: nat | i < |t.emails| && t.emails[i].alias == m.alias &&
                                       t.emails[i].createdAt >= now - p.window| >= p.limit;
            var stopped := p.recheck && taken;
            && (reply == Accepted <==> known && !taken && !again && !spent && key in store)
            && (reply == ObjectMissing <==> known && !taken && !again && !spent && key !in store)
            && (reply == UnknownAlias <==> !stopped && !known)
            && (reply == Duplicate <==> stopped || (known && again))
            && (reply == RateLimited <==> !stopped && known && !again && spent)
            && (reply == ServerError <==> !stopped && known && !again && !spent && taken)
  {
    ReplyByChecks(p, t, store, m, at, now, res, pick, deleteFails);
    WhatIsChecked(p, t, m, now);
  }

  lemma WhatIsChecked(p: Policy, t: Tables, m: Message, now: int)
    ensures Key(m) == if |m.key| <= 512 then m.key else m.key[..512]
    ensures MessageId(m) == if m.messageId == "" then None
                            else Some(if |m.messageId| <= 998 then m.messageId else m.messageId[..998])
    ensures OverLimit(p, t.emails, m.alias, now) <==>
              p.limit > 0 &&
              |set i: nat | i < |t.emails| && t.emails[i].alias == m.alias &&
                            t.emails[i].createdAt >= now - p.window| >= p.limit
  {
    assert Recent(t.emails, m.alias, now - p.window) ==
           set i: nat | i < |t.emails| && t.emails[i].alias == m.alias && t.emails[i].createdAt >= now - p.window;
  }

  lemma ReplyByChecks(p: Policy, t: Tables, store: set<string>, m: Message, at: int, now: int,
                      res: Result, pick: Option<nat>, deleteFails: bool)
    ensures var reply := Receive(p, t, store, m, at, now, res, pick, deleteFails).reply;
            var taken := Owned(t.emails, Key(m));
            var known, again := ActiveAlias(t, m.alias), Seen(t.emails, m.alias, MessageId(m));
            var spent, stopped := OverLimit(p, t.emails, m.alias, now), p.recheck && taken;
            && (reply == Accepted <==> known && !taken && !again && !spent && Key(m) in store)
            && (reply == ObjectMissing <==> known && !taken && !again && !spent && Key(m) !in store)
            && (reply == UnknownAlias <==> !stopped && !known)
            && (reply == Duplicate <==> stopped || (known && again))
            && (reply == RateLimited <==> !stopped && known && !again && spent)
            && (reply == ServerError <==> !stopped && known && !again && !spent && taken)
  {
  }

  // ---- other people's mails ------------------------------------------------------------------

  // the alias's own mails, in order
  function Own(emails: seq<Email>, alias: string): seq<Email> {
    if emails == [] then []
    else
      var n := |emails| - 1;
      Own(emails[..n], alias) + if emails[n].alias == alias then [emails[n]] else []
  }

  function Since(emails: seq<Email>, since: int): nat {
    if emails == [] then 0
    else
      var n := |emails| - 1;
      Since(emails[..n], since) + if emails[n].createdAt >= since then 1 else 0
  }

  predicate HasId(emails: seq<Email>, id: Option<string>) {
    exists i :: 0 <= i < |emails| && emails[i].messageId == id
  }

  lemma SinceAppend(emails: seq<Email>, mail: Email, since: int)
    ensures Since(emails + [mail], since) == Since(emails, since) + if mail.createdAt >= since then 1 else 0
  {
    assert (emails + [mail])[..|emails|] == emails;
  }

  lemma RecentAppend(emails: seq<Email>, mail: Email, alias: string, since: int)
    ensures |Recent(emails + [mail], alias, since)| ==
            |Recent(emails, alias, since)| + if mail.alias == alias && mail.createdAt >= since then 1 else 0
  {
    var more := if mail.alias == alias && mail.createdAt >= since then {|emails|} else {};
    assert Recent(emails + [mail], alias, since) == Recent(emails, alias, since) + more;
  }

  // the rate limit counts the alias's own mails
  lemma {:induction false} RecentIsOwn(emails: seq<Email>, alias: string, since: int)
    ensures |Recent(emails, alias, since)| == Since(Own(emails, alias), since)
  {
    if emails == [] {
      assert Recent(emails, alias, since) == {};
    } else {
      var n := |emails| - 1;
      assert emails[..n] + [emails[n]] == emails;
      RecentIsOwn(emails[..n], alias, since);
      RecentAppend(emails[..n], emails[n], alias, since);
      if emails[n].alias == alias {
        SinceAppend(Own(emails[..n], alias), emails[n], since);
      } else {
        assert Own(emails, alias) == Own(emails[..n], alias);
      }
    }
  }

  lemma HasIdAppend(emails: seq<Email>, mail: Email, id: Option<string>)
    ensures HasId(emails + [mail], id) <==> HasId(emails, id) || mail.messageId == id
  {
    assert (emails + [mail])[|emails|] == mail;
    if i :| 0 <= i < |emails| && emails[i].messageId == id {
      assert (emails + [mail])[i] == emails[i];
    }
  }

  // and so does the Message-ID check
  lemma {:induction false} SeenIsOwn(emails: seq<Email>, alias: string, id: Option<string>)
    ensures Seen(emails, alias, id) <==> id.Some? && HasId(Own(emails, alias), id)
  {
    if emails == [] {
    } else {
      var n := |emails| - 1;
      SeenIsOwn(emails[..n], alias, id);
      SeenAppend(emails[..n], emails[n], alias, id);
      assert emails[..n] + [emails[n]] == emails;
      if emails[n].alias == alias {
        HasIdAppend(Own(emails[..n], alias), emails[n], id);
      } else {
        assert Own(emails, alias) == Own(emails[..n], alias);
      }
    }
  }

  lemma SeenAppend(emails: seq<Email>, mail: Email, alias: string, id: Option<string>)
    ensures Seen(emails + [mail], alias, id) <==>
              Seen(emails, alias, id) || (id.Some? && mail.alias == alias && mail.messageId == id)
  {
    assert (emails + [mail])[|emails|] == mail;
    assert forall i :: 0 <= i < |emails| ==> (emails + [mail])[i] == emails[i];
  }

  /** Whatever else is in the tables, the reply is the same: other aliases' mails use up no
      budget and make no duplicate, and other aliases' switches close nothing. */
  lemma ReplyByOwnMails(p: Policy, t: Tables, u: Tables, store: set<string>, m: Message, at: int, now: int,
                        res: Result, pick: Option<nat>, otherPick: Option<nat>, deleteFails: bool)
    requires Own(t.emails, m.alias) == Own(u.emails, m.alias)
    requires ActiveAlias(t, m.alias) <==> ActiveAlias(u, m.alias)
    requires Owned(t.emails, Key(m)) <==> Owned(u.emails, Key(m))
    ensures Receive(p, t, store, m, at, now, res, pick, deleteFails).reply ==
            Receive(p, u, store, m, at, now, res, otherPick, deleteFails).reply
  {
    RecentIsOwn(t.emails, m.alias, now - p.window);
    RecentIsOwn(u.emails, m.alias, now - p.window);
    SeenIsOwn(t.emails, m.alias, MessageId(m));
    SeenIsOwn(u.emails, m.alias, MessageId(m));
  }

  /** In particular one more mail of another alias changes no reply. */
  lemma OthersDoNotCount(p: Policy, t: Tables, other: Email, store: set<string>, m: Message, at: int, now: int,
                         res: Result, pick: Option<nat>, deleteFails: bool)
    requires other.alias != m.alias && other.key != Some(Key(m))
    ensures Receive(p, t.(emails := t.emails + [other]), store, m, at, now, res, pick, deleteFails).reply ==
            Receive(p, t, store, m, at, now, res, pick, deleteFails).reply
  {
    var u := t.(emails := t.emails + [other]);
    assert u.emails[..|t.emails|] == t.emails;
    assert Owned(u.emails, Key(m)) <==> Owned(t.emails, Key(m)) by {
      assert forall i :: 0 <= i < |t.emails| ==> u.emails[i] == t.emails[i];
    }
    ReplyByOwnMails(p, t, u, store, m, at, now, res, pick, pick, deleteFails);
  }

  // ---- opening and closing ---------------------------------------------------------------------

  // a step closes an alias
  predicate Closes(t: Tables, step: Step, alias: string) {
    || (step.Deactivate? && step.alias == alias)
    || (step.EraseUser? && alias in t.aliases && t.aliases[alias].user == step.user)
  }

  // what a step does to an alias that exists
  lemma AliasStep(p: Policy, s: World, step: Step, alias: string)
    requires Enabled(p, s, step) && alias in s.t.aliases
    ensures var a, b := s.t.aliases, Next(p, s, step).t.aliases;
            && alias in b && b[alias].user == a[alias].user && b[alias].apiKey == a[alias].apiKey
            && (b[alias].active <==> a[alias].active && !Closes(s.t, step, alias))
            && (!step.Handle? && !Closes(s.t, step, alias) ==> b[alias] == a[alias])
  {
    if step.Handle? {
      DeliveryStep(p, s, step);
    }
  }

  predicate NeverClosed(t: Tables, steps: seq<Step>, alias: string) {
    forall i :: 0 <= i < |steps| ==> !Closes(t, steps[i], alias)
  }

  lemma NeverClosedTail(t: Tables, u: Tables, steps: seq<Step>, alias: string)
    requires steps != [] && alias in t.aliases && alias in u.aliases && t.aliases[alias].user == u.aliases[alias].user
    ensures NeverClosed(t, steps, alias) <==> !Closes(t, steps[0], alias) && NeverClosed(u, steps[1..], alias)
  {
    assert forall i :: 0 <= i < |steps[1..]| ==> steps[1..][i] == steps[i + 1];
    if NeverClosed(u, steps[1..], alias) && !Closes(t, steps[0], alias) {
      forall i | 0 <= i < |steps| ensures !Closes(t, steps[i], alias) {
        assert i > 0 ==> steps[i] == steps[1..][i - 1];
      }
    }
  }

  /** Over every run an alias keeps its owner and its key, and is open at the end exactly
      when it was open and the run neither deactivates it nor erases its owner. Nothing
      done to other aliases or other users closes it, and nothing opens it again. */
  lemma {:induction false} AliasStaysOpen(p: Policy, s: World, steps: seq<Step>, alias: string)
    requires Valid(p, s, steps) && alias in s.t.aliases
    ensures var a, b := s.t.aliases, End(p, s, steps).t.aliases;
            && alias in b && b[alias].user == a[alias].user && b[alias].apiKey == a[alias].apiKey
            && (b[alias].active <==> a[alias].active && NeverClosed(s.t, steps, alias))
    decreases |steps|
  {
    if steps == [] {
    } else {
      var s' := Next(p, s, steps[0]);
      AliasStep(p, s, steps[0], alias);
      AliasStaysOpen(p, s', steps[1..], alias);
      NeverClosedTail(s.t, s'.t, steps, alias);
    }
  }

  // no mail of the alias was added behind the first n
  predicate NoneSince(emails: seq<Email>, n: nat, alias: string) {
    forall i :: n <= i < |emails| ==> emails[i].alias != alias
  }

  lemma ClosedStep(p: Policy, s: World, step: Step, alias: string)
    requires Enabled(p, s, step) && RowsHaveMails(s.t) && alias in s.t.aliases && !s.t.aliases[alias].active
    ensures var a, b := s.t.emails, Next(p, s, step).t.emails;
            |a| <= |b| && NoneSince(b, |a|, alias) && forall i :: 0 <= i < |a| ==> b[i].alias == a[i].alias
  {
    if step.Handle? {
      DeliveryStep(p, s, step);
    } else {
      OtherSteps(p, s, step);
      assert forall i :: 0 <= i < |s.t.emails| ==>
               SameMail(s.t.emails[i], Next(p, s, step).t.emails[i], i in NulledBy(step));
    }
  }

  lemma {:induction false} ClosedAcceptsNothing(p: Policy, s: World, steps: seq<Step>, alias: string)
    requires Theorems.Good(p, s) && Valid(p, s, steps) && alias in s.t.aliases && !s.t.aliases[alias].active
    ensures |s.t.emails| <= |End(p, s, steps).t.emails| && NoneSince(End(p, s, steps).t.emails, |s.t.emails|, alias)
    ensures forall i :: 0 <= i < |s.t.emails| ==> End(p, s, steps).t.emails[i].alias == s.t.emails[i].alias
    decreases |steps|
  {
    if steps == [] {
    } else {
      ClosedStep(p, s, steps[0], alias);
      AliasStep(p, s, steps[0], alias);
      Theorems.GoodStep(p, s, steps[0]);
      ClosedAcceptsNothing(p, Next(p, s, steps[0]), steps[1..], alias);
    }
  }

  /** Once an alias is deactivated no mail of it is ever stored again, whatever deliveries
      were under way. */
  lemma DeactivationIsFinal(p: Policy, before: seq<Step>, s: World, alias: string, after: seq<Step>)
    requires Valid(p, START, before) && s == End(p, START, before) && alias in s.t.aliases
    requires Valid(p, Next(p, s, Deactivate(alias)), after)
    ensures var s' := End(p, Next(p, s, Deactivate(alias)), after);
            |s.t.emails| <= |s'.t.emails| && NoneSince(s'.t.emails, |s.t.emails|, alias)
  {
    Theorems.StartGood(p);
    Theorems.GoodRun(p, START, before);
    Theorems.GoodStep(p, s, Deactivate(alias));
    ClosedAcceptsNothing(p, Next(p, s, Deactivate(alias)), after, alias);
  }

  // ---- who an alias belongs to -------------------------------------------------------------------

  predicate CreatedIn(steps: seq<Step>, alias: string, a: Alias) {
    exists n :: 0 <= n < |steps| && steps[n] == CreateAlias(alias, a.user, a.apiKey)
  }

  lemma NewAliasStep(p: Policy, s: World, step: Step, alias: string)
    requires Enabled(p, s, step) && alias !in s.t.aliases && alias in Next(p, s, step).t.aliases
    ensures var a := Next(p, s, step).t.aliases[alias];
            step == CreateAlias(alias, a.user, a.apiKey) && a.active && a.received == 0
  {
    if step.Handle? {
      DeliveryStep(p, s, step);
    }
  }

  /** Every alias belongs to the user and the API key it was created for. */
  lemma {:induction false} OwnersAreCreators(p: Policy, steps: seq<Step>, alias: string)
    requires Valid(p, START, steps) && alias in End(p, START, steps).t.aliases
    ensures CreatedIn(steps, alias, End(p, START, steps).t.aliases[alias])
    decreases |steps|
  {
    if steps == [] {
    } else {
      var front, last := steps[..|steps| - 1], steps[|steps| - 1];
      LastStep(p, START, steps);
      var s := End(p, START, front);
      if alias in s.t.aliases {
        OwnersAreCreators(p, front, alias);
        AliasStep(p, s, last, alias);
        var n :| 0 <= n < |front| && front[n] == CreateAlias(alias, s.t.aliases[alias].user, s.t.aliases[alias].apiKey);
        assert steps[n] == front[n];
      } else {
        NewAliasStep(p, s, last, alias);
        assert steps[|steps| - 1] == last;
      }
    }
  }
}
