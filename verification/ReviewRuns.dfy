/** The review lifecycle and the duplicate flags over whole runs. */
module ReviewRuns {
  import opened Common
  import opened Schema
  import opened Pipeline
  import opened Ingest
  import opened World
  import opened Frames
  import opened Review

  // the mail of an undecided row tells the row's status
  predicate MailAgrees(row: Extraction, mail: Email) {
    !Decided(row) ==> mail.status == if row.status == Pending then Processed else Failed
  }

  predicate Lifecycle(t: Tables) {
    && RowsHaveMails(t)
    && (forall i, j :: 0 <= i < j < |t.rows| ==> t.rows[i].email != t.rows[j].email)
    && (forall i :: 0 <= i < |t.rows| ==> RowSound(t.rows[i]) && MailAgrees(t.rows[i], t.emails[t.rows[i].email]))
  }

  predicate Reviewed(t: Tables) {
    Lifecycle(t) && Paired(t)
  }

  // ---- accepting a mail -----------------------------------------------------------

  lemma NewRowSound(t: Tables, m: Message, at: int, r: Reading, pick: Option<nat>)
    requires m.alias in t.aliases && Financial(Run(r)) && Ingest.PickFits(t, m, at, Run(r), pick)
    ensures var u := Accept(t, m, at, Run(r), pick); var k := |t.rows|;
            && |u.rows| == k + 1 && RowSound(u.rows[k]) && !Decided(u.rows[k])
            && u.rows[k]
                  == RowsWith(WithMail(t, m, at), |t.emails|, t.aliases[m.alias].user, Run(r), at)[k]
                    .(flagged := u.rows[k].flagged)
            && (if Checked(u.rows[k]) && pick.Some?
                then u.rows[k].flagged == 1 && u.matches == t.matches + [Match(k, pick.value)]
                else u.rows[k].flagged == 0 && u.matches == t.matches)
  {
    ApplySound(NewRow(|t.emails|, t.aliases[m.alias].user, m.alias, at), r);
  }

  // one mail more, and at most one sound, undecided row for it
  lemma LifecycleGrows(t: Tables, u: Tables)
    requires Lifecycle(t)
    requires |u.emails| == |t.emails| + 1 && u.emails[..|t.emails|] == t.emails && u.emails[|t.emails|].status != Error
    requires |t.rows| <= |u.rows| <= |t.rows| + 1 && u.rows[..|t.rows|] == t.rows
    requires |u.rows| > |t.rows| ==>
      u.rows[|t.rows|].email == |t.emails| && RowSound(u.rows[|t.rows|])
      && MailAgrees(u.rows[|t.rows|], u.emails[|t.emails|])
    ensures Lifecycle(u)
  {
    forall i | 0 <= i < |t.rows|
      ensures u.rows[i] == t.rows[i] && u.emails[t.rows[i].email] == t.emails[t.rows[i].email] {
    }
  }

  lemma AcceptLifecycle(t: Tables, m: Message, at: int, r: Reading, pick: Option<nat>)
    requires m.alias in t.aliases && Ingest.PickFits(t, m, at, Run(r), pick) && Lifecycle(t)
    ensures Lifecycle(Accept(t, m, at, Run(r), pick))
  {
    AcceptWrites(t, m, at, Run(r), pick);
    if Financial(Run(r)) {
      NewRowSound(t, m, at, r, pick);
    }
    LifecycleGrows(t, Accept(t, m, at, Run(r), pick));
  }

  // a row added behind the others has no match rows yet, and the old ones keep theirs
  lemma AppendPaired(t: Tables, u: Tables)
    requires Paired(t) && |u.rows| == |t.rows| + 1 && u.rows[..|t.rows|] == t.rows
    requires u.matches == t.matches && u.rows[|t.rows|].flagged == 0
    ensures Paired(u)
  {
    NoMatches(t.matches, |t.rows|);
    assert forall i :: 0 <= i < |t.rows| ==> u.rows[i] == t.rows[i];
  }

  lemma AcceptPaired(t: Tables, m: Message, at: int, r: Reading, pick: Option<nat>)
    requires m.alias in t.aliases && Ingest.PickFits(t, m, at, Run(r), pick) && Paired(t)
    ensures Paired(Accept(t, m, at, Run(r), pick))
  {
    AcceptWrites(t, m, at, Run(r), pick);
    var u := Accept(t, m, at, Run(r), pick);
    if Financial(Run(r)) {
      NewRowSound(t, m, at, r, pick);
      var rows := RowsWith(WithMail(t, m, at), |t.emails|, t.aliases[m.alias].user, Run(r), at);
      var plain := t.(rows := rows);
      AppendPaired(t, plain);
      FlagPaired(plain, |t.rows|, pick);
      assert Flag(plain, |t.rows|, pick).rows == u.rows;
      assert Flag(plain, |t.rows|, pick).matches == u.matches;
    } else {
      assert u.rows == t.rows && u.matches == t.matches;
    }
  }

  // ---- reprocessing ------------------------------------------------------------------

  lemma ReprocessLifecycle(t: Tables, store: set<string>, i: nat, r: Reading, pick: Option<nat>)
    requires Lifecycle(t)
    ensures Lifecycle(Review.Reprocess(t, store, i, Run(r), pick).0)
  {
    if Reprocessable(t, store, i, Run(r)) {
      ApplySound(t.rows[i], r);
      var u := Review.Reprocess(t, store, i, Run(r), pick).0;
      forall j | 0 <= j < |u.rows|
        ensures RowSound(u.rows[j]) && u.rows[j].email == t.rows[j].email &&
                MailAgrees(u.rows[j], u.emails[u.rows[j].email])
      {
        assert RowSound(t.rows[j]) && MailAgrees(t.rows[j], t.emails[t.rows[j].email]);
      }
    }
  }

  lemma ReprocessPaired(t: Tables, store: set<string>, i: nat, r: Reading, pick: Option<nat>)
    requires Paired(t)
    requires Reprocessable(t, store, i, Run(r)) ==>
               Review.PickFits(t.rows[i := Redone(t.rows[i], Run(r))], i, pick)
    ensures Paired(Review.Reprocess(t, store, i, Run(r), pick).0)
  {
    if Reprocessable(t, store, i, Run(r)) {
      var plain := t.(rows := t.rows[i := Redone(t.rows[i], Run(r))], matches := Without(t.matches, i));
      forall j | 0 <= j < |plain.rows|
        ensures plain.rows[j].flagged <= 1 && |MatchesOf(plain.matches, j)| == plain.rows[j].flagged
      {
        MatchesOfWithout(t.matches, i, j);
      }
      MatchesOfWithout(t.matches, i, i);
      FlagPaired(plain, i, pick);
      var u := Review.Reprocess(t, store, i, Run(r), pick).0;
      assert Flag(plain, i, pick).rows == u.rows && Flag(plain, i, pick).matches == u.matches;
    }
  }

  // ---- all steps ------------------------------------------------------------------------

  // a decision sets the status and its data, nothing else
  predicate Decides(a: Extraction, b: Extraction) {
    Decided(b) && b == a.(status := b.status, category := b.category, reason := b.reason)
  }

  lemma DecidesLifecycle(t: Tables, i: nat, row: Extraction)
    requires Lifecycle(t) && i < |t.rows| && Decides(t.rows[i], row)
    ensures Lifecycle(t.(rows := t.rows[i := row]))
  {
    assert RowSound(t.rows[i]);
  }

  lemma DecidesPaired(t: Tables, i: nat, row: Extraction)
    requires Paired(t) && i < |t.rows| && Decides(t.rows[i], row)
    ensures Paired(t.(rows := t.rows[i := row]))
  {
  }

  lemma DecisionIs(t: Tables, i: nat, text: Option<string>)
    ensures var u := Review.Confirm(t, i, text).0;
            u == t || (i < |t.rows| && |u.rows| == |t.rows| && Decides(t.rows[i], u.rows[i]) &&
                       u == t.(rows := t.rows[i := u.rows[i]]))
    ensures var u := Review.Dismiss(t, i, text).0;
            u == t || (i < |t.rows| && |u.rows| == |t.rows| && Decides(t.rows[i], u.rows[i]) &&
                       u == t.(rows := t.rows[i := u.rows[i]]))
  {
  }

  lemma DecisionReviewed(t: Tables, u: Tables, i: nat)
    requires Reviewed(t)
    requires u == t || (i < |t.rows| && |u.rows| == |t.rows| && Decides(t.rows[i], u.rows[i]) &&
                        u == t.(rows := t.rows[i := u.rows[i]]))
    ensures Reviewed(u)
  {
    if u != t {
      DecidesLifecycle(t, i, u.rows[i]);
      DecidesPaired(t, i, u.rows[i]);
    }
  }

  predicate TouchesReview(step: Step) {
    step.Handle? || step.Reprocess? || step.Confirm? || step.Dismiss?
  }

  lemma OtherStepsUnrelated(p: Policy, s: World, step: Step)
    requires Enabled(p, s, step) && !TouchesReview(step)
    ensures var t, t' := s.t, Next(p, s, step).t;
            && t'.rows == t.rows && t'.matches == t.matches && |t'.emails| == |t.emails|
            && forall e :: 0 <= e < |t.emails| ==> t'.emails[e].status == t.emails[e].status
  {
  }

  lemma MissedReviewed(t: Tables, m: Message, at: int)
    requires Reviewed(t)
    ensures Reviewed(RecordMissing(t, m, at))
  {
    var u := RecordMissing(t, m, at);
    assert forall e :: 0 <= e < |t.emails| ==> u.emails[e] == t.emails[e];
  }

  lemma DeliveryReviewed(p: Policy, s: World, step: Step)
    requires step.Handle? && Enabled(p, s, step) && Reviewed(s.t)
    ensures Reviewed(Next(p, s, step).t)
  {
    HandleStep(p, s, step);
    var m, at := s.sent[step.flight.key], step.flight.at;
    if Missed(p, s, Next(p, s, step), m, at) {
      MissedReviewed(s.t, m, at);
    } else if Stored(p, s, Next(p, s, step), m, step) {
      AcceptLifecycle(s.t, m, at, step.reading, step.pick);
      AcceptPaired(s.t, m, at, step.reading, step.pick);
    }
  }

  lemma OthersReviewed(t: Tables, u: Tables)
    requires Reviewed(t) && u.rows == t.rows && u.matches == t.matches && |u.emails| == |t.emails|
    requires forall e :: 0 <= e < |t.emails| ==> u.emails[e].status == t.emails[e].status
    ensures Reviewed(u)
  {
  }

  lemma ReviewedStep(p: Policy, s: World, step: Step)
    requires Enabled(p, s, step) && Reviewed(s.t)
    ensures Reviewed(Next(p, s, step).t)
  {
    if step.Handle? {
      DeliveryReviewed(p, s, step);
    } else if step.Reprocess? {
      ReprocessLifecycle(s.t, s.store, step.row, step.reading, step.pick);
      ReprocessPaired(s.t, s.store, step.row, step.reading, step.pick);
    } else if TouchesReview(step) {
      var text := if step.Confirm? then step.category else step.reason;
      DecisionIs(s.t, step.row, text);
      DecisionReviewed(s.t, Next(p, s, step).t, step.row);
    } else {
      OtherStepsUnrelated(p, s, step);
      OthersReviewed(s.t, Next(p, s, step).t);
    }
  }
}
