/** Counters and events agree with the rows: emails_received with the accepted
    mails, the first-email event with the counter, extraction rows with their events. */
module Counters {
  import opened Common
  import opened Schema
  import opened Ingest
  import opened World
  import opened Frames
  import Pipeline

  function AcceptedMails(emails: seq<Email>, alias: string): set<nat> {
    set i: nat | i < |emails| && emails[i].alias == alias && emails[i].status != Error
  }

  predicate CountsAgree(t: Tables) {
    && (forall i :: 0 <= i < |t.emails| ==> t.emails[i].alias in t.aliases)
    && (forall a :: a in t.aliases ==> t.aliases[a].received == |AcceptedMails(t.emails, a)|)
  }

  predicate FirstFor(e: Event, alias: string) {
    e.kind.FirstEmail? && e.alias == alias
  }

  predicate HasFirst(outbox: seq<Event>, alias: string) {
    exists k :: 0 <= k < |outbox| && FirstFor(outbox[k], alias)
  }

  predicate FirstsDiffer(outbox: seq<Event>) {
    forall j, k :: 0 <= j < k < |outbox| && outbox[j].kind.FirstEmail? && outbox[k].kind.FirstEmail? ==>
      outbox[j].alias != outbox[k].alias
  }

  // one first-email event for an alias that has accepted a mail, none before
  predicate FirstOnce(t: Tables) {
    && (forall k :: 0 <= k < |t.outbox| ==> t.outbox[k].alias in t.aliases)
    && (forall a :: a in t.aliases ==> (t.aliases[a].received > 0 <==> HasFirst(t.outbox, a)))
    && FirstsDiffer(t.outbox)
  }

  predicate Announces(e: Event, row: nat) {
    e.kind.ExtractionEvent? && e.kind.row == row
  }

  predicate Announced(outbox: seq<Event>, row: nat) {
    exists k :: 0 <= k < |outbox| && Announces(outbox[k], row)
  }

  predicate RowsDiffer(outbox: seq<Event>) {
    forall j, k :: 0 <= j < k < |outbox| && outbox[j].kind.ExtractionEvent? && outbox[k].kind.ExtractionEvent? ==>
      outbox[j].kind.row != outbox[k].kind.row
  }

  predicate EventFits(t: Tables, e: Event) {
    e.kind.ExtractionEvent? ==>
      e.kind.row < |t.rows| && t.rows[e.kind.row].alias == e.alias && (e.kind.created <==> e.kind.status == Pending)
  }

  // each extraction row was announced exactly once, as what it was then, and each
  // mail has at most one row
  predicate RowsAnnounced(t: Tables) {
    && RowsHaveMails(t)
    && (forall i :: 0 <= i < |t.rows| ==> t.rows[i].alias == t.emails[t.rows[i].email].alias)
    && (forall i, j :: 0 <= i < j < |t.rows| ==> t.rows[i].email != t.rows[j].email)
    && (forall i :: 0 <= i < |t.rows| ==> Announced(t.outbox, i))
    && (forall k :: 0 <= k < |t.outbox| ==> EventFits(t, t.outbox[k]))
    && RowsDiffer(t.outbox)
  }

  predicate Agreed(t: Tables) {
    CountsAgree(t) && FirstOnce(t) && RowsAnnounced(t)
  }

  // ---- every step but a delivery -------------------------------------------------------

  lemma KeptCounts(a: Tables, b: Tables, nulled: set<nat>)
    requires TablesKept(a, b, nulled) && CountsAgree(a)
    ensures CountsAgree(b)
  {
    forall i | 0 <= i < |b.emails| ensures b.emails[i].alias in b.aliases {
      assert SameMail(a.emails[i], b.emails[i], i in nulled);
    }
    forall x | x in b.aliases ensures b.aliases[x].received == |AcceptedMails(b.emails, x)| {
      assert AcceptedMails(b.emails, x) == AcceptedMails(a.emails, x) by {
        assert forall i :: 0 <= i < |a.emails| ==> SameMail(a.emails[i], b.emails[i], i in nulled);
      }
      if x !in a.aliases {
        assert AcceptedMails(a.emails, x) == {};
      }
    }
  }

  lemma KeptEvents(a: seq<Event>, b: seq<Event>)
    requires EventsKept(a, b)
    ensures forall x :: HasFirst(a, x) <==> HasFirst(b, x)
    ensures forall i :: Announced(a, i) <==> Announced(b, i)
  {
    forall x ensures HasFirst(a, x) <==> HasFirst(b, x) {
      assert forall k :: 0 <= k < |a| ==> (FirstFor(a[k], x) <==> FirstFor(b[k], x));
    }
    forall i ensures Announced(a, i) <==> Announced(b, i) {
      assert forall k :: 0 <= k < |a| ==> (Announces(a[k], i) <==> Announces(b[k], i));
    }
  }

  lemma KeptFirst(a: Tables, b: Tables, nulled: set<nat>)
    requires TablesKept(a, b, nulled) && FirstOnce(a)
    ensures FirstOnce(b)
  {
    KeptEvents(a.outbox, b.outbox);
    forall x | x in b.aliases && x !in a.aliases ensures !HasFirst(a.outbox, x) {
    }
  }

  lemma KeptRows(a: Tables, b: Tables, nulled: set<nat>)
    requires TablesKept(a, b, nulled) && RowsAnnounced(a)
    ensures RowsAnnounced(b)
  {
    forall i | 0 <= i < |b.rows|
      ensures b.rows[i].email < |b.emails| && b.emails[b.rows[i].email].status != Error
      ensures b.rows[i].alias == b.emails[b.rows[i].email].alias
    {
      assert SameOrigin(a.rows[i], b.rows[i]);
      var e := a.rows[i].email;
      assert SameMail(a.emails[e], b.emails[e], e in nulled);
    }
    KeptEvents(a.outbox, b.outbox);
    forall i, j | 0 <= i < j < |b.rows| ensures b.rows[i].email != b.rows[j].email {
      assert SameOrigin(a.rows[i], b.rows[i]) && SameOrigin(a.rows[j], b.rows[j]);
    }
    forall k | 0 <= k < |b.outbox| ensures EventFits(b, b.outbox[k]) {
      assert EventFits(a, a.outbox[k]);
      if a.outbox[k].kind.ExtractionEvent? {
        var r := a.outbox[k].kind.row;
        assert SameOrigin(a.rows[r], b.rows[r]);
      }
    }
  }

  lemma KeptAgreed(a: Tables, b: Tables, nulled: set<nat>)
    requires TablesKept(a, b, nulled) && Agreed(a)
    ensures Agreed(b)
  {
    KeptCounts(a, b, nulled);
    KeptFirst(a, b, nulled);
    KeptRows(a, b, nulled);
  }

  // ---- deliveries -----------------------------------------------------------------------

  lemma AcceptedAppend(emails: seq<Email>, mail: Email, x: string)
    ensures var n := |emails|;
            AcceptedMails(emails + [mail], x) ==
            AcceptedMails(emails, x) + if mail.alias == x && mail.status != Error then {n} else {}
  {
  }

  // rows, mails and events that are only appended to keep what was said about the old ones
  lemma OldRowsKept(t: Tables, u: Tables)
    requires RowsAnnounced(t)
    requires |t.emails| <= |u.emails| && u.emails[..|t.emails|] == t.emails
    requires |t.rows| <= |u.rows| && u.rows[..|t.rows|] == t.rows
    ensures forall i :: 0 <= i < |t.rows| ==>
              u.rows[i].email < |t.emails| && u.emails[u.rows[i].email].status != Error &&
              u.rows[i].alias == u.emails[u.rows[i].email].alias
    ensures forall k :: 0 <= k < |t.outbox| ==> EventFits(u, t.outbox[k])
  {
    forall i | 0 <= i < |t.rows|
      ensures u.rows[i].email < |t.emails| && u.emails[u.rows[i].email].status != Error &&
              u.rows[i].alias == u.emails[u.rows[i].email].alias
    {
      assert u.rows[i] == t.rows[i] && u.emails[t.rows[i].email] == t.emails[t.rows[i].email];
    }
    forall k | 0 <= k < |t.outbox| ensures EventFits(u, t.outbox[k]) {
      assert EventFits(t, t.outbox[k]);
      assert t.outbox[k].kind.ExtractionEvent? ==> u.rows[t.outbox[k].kind.row] == t.rows[t.outbox[k].kind.row];
    }
  }

  lemma MissingAgrees(t: Tables, m: Message, at: int)
    requires Agreed(t) && m.alias in t.aliases
    ensures Agreed(RecordMissing(t, m, at))
  {
    var u := RecordMissing(t, m, at);
    forall x | x in u.aliases ensures u.aliases[x].received == |AcceptedMails(u.emails, x)| {
      AcceptedAppend(t.emails, NewMail(m, at).(status := Error), x);
    }
    OldRowsKept(t, u);
  }

  lemma AcceptCounts(t: Tables, m: Message, at: int, res: Pipeline.Result, pick: Option<nat>)
    requires Agreed(t) && m.alias in t.aliases
    ensures CountsAgree(Accept(t, m, at, res, pick))
  {
    AcceptWrites(t, m, at, res, pick);
    var u := Accept(t, m, at, res, pick);
    var n := |t.emails|;
    assert u.emails == t.emails + [u.emails[n]];
    forall x | x in u.aliases ensures u.aliases[x].received == |AcceptedMails(u.emails, x)| {
      AcceptedAppend(t.emails, u.emails[n], x);
      assert n !in AcceptedMails(t.emails, x);
    }
  }

  lemma EventsAppend(a: seq<Event>, b: seq<Event>, x: string, i: nat)
    ensures HasFirst(a + b, x) <==> HasFirst(a, x) || HasFirst(b, x)
    ensures Announced(a + b, i) <==> Announced(a, i) || Announced(b, i)
  {
    assert forall k :: 0 <= k < |a| ==> (a + b)[k] == a[k];
    assert forall k :: 0 <= k < |b| ==> (a + b)[|a| + k] == b[k];
  }

  lemma AcceptFirst(t: Tables, m: Message, at: int, res: Pipeline.Result, pick: Option<nat>)
    requires Agreed(t) && m.alias in t.aliases
    ensures FirstOnce(Accept(t, m, at, res, pick))
  {
    AcceptWrites(t, m, at, res, pick);
    var u := Accept(t, m, at, res, pick);
    FirstAdded(t.outbox, WorkEvents(t, m, at, res, u.rows), FirstEvents(t, m, at), m.alias,
               t.aliases[m.alias].received == 0);
  }

  lemma FirstAdded(prior: seq<Event>, work: seq<Event>, first: seq<Event>, alias: string, due: bool)
    requires FirstsDiffer(prior) && (due <==> !HasFirst(prior, alias))
    requires forall k :: 0 <= k < |work| ==> !work[k].kind.FirstEmail?
    requires |first| == if due then 1 else 0
    requires forall k :: 0 <= k < |first| ==> FirstFor(first[k], alias)
    ensures FirstsDiffer(prior + work + first)
    ensures forall x :: HasFirst(prior + work + first, x) <==> HasFirst(prior, x) || x == alias
  {
    forall x ensures HasFirst(prior + work + first, x) <==> HasFirst(prior, x) || x == alias {
      EventsAppend(prior + work, first, x, 0);
      EventsAppend(prior, work, x, 0);
      assert due ==> FirstFor(first[0], alias);
    }
    var all := prior + work + first;
    forall j, k | 0 <= j < k < |all| && all[j].kind.FirstEmail? && all[k].kind.FirstEmail?
      ensures all[j].alias != all[k].alias
    {
      assert j < |prior| && all[j] == prior[j] && FirstFor(prior[j], prior[j].alias);
      assert k < |prior| || all[k] == first[0];
    }
  }

  lemma AllFit(u: Tables, prior: seq<Event>, work: seq<Event>, first: seq<Event>)
    requires forall k :: 0 <= k < |prior| ==> EventFits(u, prior[k])
    requires forall k :: 0 <= k < |work| ==> EventFits(u, work[k])
    requires forall k :: 0 <= k < |first| ==> first[k].kind.FirstEmail?
    ensures forall k :: 0 <= k < |prior + work + first| ==> EventFits(u, (prior + work + first)[k])
  {
  }

  // at most one row more, for the new mail, and exactly then one event for it
  lemma RowsAnnouncedGrow(t: Tables, u: Tables, work: seq<Event>, first: seq<Event>)
    requires RowsAnnounced(t)
    requires |u.emails| == |t.emails| + 1 && u.emails[..|t.emails|] == t.emails && u.emails[|t.emails|].status != Error
    requires |t.rows| <= |u.rows| <= |t.rows| + 1 && u.rows[..|t.rows|] == t.rows
    requires |u.rows| > |t.rows| ==>
      u.rows[|t.rows|].email == |t.emails| && u.rows[|t.rows|].alias == u.emails[|t.emails|].alias
    requires u.outbox == t.outbox + work + first && |work| <= 1
    requires forall k :: 0 <= k < |work| ==> EventFits(u, work[k])
    requires forall k :: 0 <= k < |work| && work[k].kind.ExtractionEvent? ==> work[k].kind.row == |t.rows|
    requires |u.rows| > |t.rows| ==> work != [] && work[0].kind.ExtractionEvent?
    requires forall k :: 0 <= k < |first| ==> first[k].kind.FirstEmail?
    ensures RowsAnnounced(u)
  {
    OldRowsKept(t, u);
    AnnouncementAdded(t.outbox, work, first, |t.rows|);
    AllFit(u, t.outbox, work, first);
  }

  lemma AcceptRows(t: Tables, m: Message, at: int, res: Pipeline.Result, pick: Option<nat>)
    requires Agreed(t) && m.alias in t.aliases
    ensures RowsAnnounced(Accept(t, m, at, res, pick))
  {
    AcceptWrites(t, m, at, res, pick);
    var u := Accept(t, m, at, res, pick);
    RowsAnnouncedGrow(t, u, WorkEvents(t, m, at, res, u.rows), FirstEvents(t, m, at));
  }

  lemma AnnouncementAdded(prior: seq<Event>, work: seq<Event>, first: seq<Event>, row: nat)
    requires RowsDiffer(prior)
    requires forall k :: 0 <= k < |prior| && prior[k].kind.ExtractionEvent? ==> prior[k].kind.row < row
    requires |work| <= 1 && forall k :: 0 <= k < |work| && work[k].kind.ExtractionEvent? ==> work[k].kind.row == row
    requires forall k :: 0 <= k < |first| ==> first[k].kind.FirstEmail?
    ensures RowsDiffer(prior + work + first)
    ensures forall i :: Announced(prior + work + first, i) <==> Announced(prior, i) || Announced(work, i)
    ensures work != [] && work[0].kind.ExtractionEvent? ==> Announced(work, row)
  {
    forall i ensures Announced(prior + work + first, i) <==> Announced(prior, i) || Announced(work, i) {
      EventsAppend(prior + work, first, "", i);
      EventsAppend(prior, work, "", i);
    }
    assert work != [] && work[0].kind.ExtractionEvent? ==> Announces(work[0], row);
  }

  lemma DeliveryAgrees(p: Policy, s: World, step: Step)
    requires step.Handle? && Enabled(p, s, step) && Agreed(s.t)
    ensures Agreed(Next(p, s, step).t)
  {
    HandleStep(p, s, step);
    var s' := Next(p, s, step);
    var m, at := s.sent[step.flight.key], step.flight.at;
    if Missed(p, s, s', m, at) {
      MissingAgrees(s.t, m, at);
    } else if Stored(p, s, s', m, step) {
      AcceptCounts(s.t, m, at, Pipeline.Run(step.reading), step.pick);
      AcceptFirst(s.t, m, at, Pipeline.Run(step.reading), step.pick);
      AcceptRows(s.t, m, at, Pipeline.Run(step.reading), step.pick);
    }
  }

  lemma AgreedStep(p: Policy, s: World, step: Step)
    requires Enabled(p, s, step) && Agreed(s.t)
    ensures Agreed(Next(p, s, step).t)
  {
    if step.Handle? {
      DeliveryAgrees(p, s, step);
    } else {
      OtherSteps(p, s, step);
      KeptAgreed(s.t, Next(p, s, step).t, NulledBy(step));
    }
  }

  // ---- the counter counts keys ---------------------------------------------------------

  function AcceptedKeys(emails: seq<Email>, alias: string): set<string> {
    set i | i in AcceptedMails(emails, alias) :: emails[i].origin
  }

  lemma {:induction false} ImageSize(emails: seq<Email>, ids: set<nat>)
    requires forall i :: i in ids ==> i < |emails|
    requires forall i, j :: i in ids && j in ids && i != j ==> emails[i].origin != emails[j].origin
    ensures |set i | i in ids :: emails[i].origin| == |ids|
  {
    var image := set i | i in ids :: emails[i].origin;
    if ids != {} {
      var x :| x in ids;
      var rest := ids - {x};
      ImageSize(emails, rest);
      var smaller := set i | i in rest :: emails[i].origin;
      assert image == smaller + {emails[x].origin};
      assert emails[x].origin !in smaller;
    } else {
      assert image == {};
    }
  }
}
