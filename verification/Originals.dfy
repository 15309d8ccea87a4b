/** What counts as an original: only another row of the same user with the same fingerprint
    that is pending or confirmed. Dismissed and failed rows are no evidence of anything. */
module Originals {
  import opened Common
  import opened Schema
  import opened Pipeline
  import opened Ingest
  import opened World
  import opened Runs
  import opened Frames
  import Review
  import ReviewRuns

  // row j shows that `row`, at place i, is a duplicate
  predicate Evidence(rows: seq<Extraction>, row: Extraction, i: nat, j: nat) {
    && j < |rows| && j != i && (rows[j].status == Pending || rows[j].status == Confirmed)
    && rows[j].fingerprint == row.fingerprint && rows[j].user == row.user
  }

  predicate OldestEvidence(rows: seq<Extraction>, row: Extraction, i: nat, j: nat) {
    && Evidence(rows, row, i, j)
    && forall k :: 0 <= k < |rows| && Evidence(rows, row, i, k) ==> rows[j].createdAt <= rows[k].createdAt
  }

  // `rows` are those before the check, `row` is the checked one after it, `added` its matches
  predicate FlaggedRight(rows: seq<Extraction>, row: Extraction, i: nat, added: seq<Match>) {
    if row.status == Pending && row.fingerprint.Some? && exists j :: 0 <= j < |rows| && Evidence(rows, row, i, j)
    then
      && row.flagged == 1 && |added| == 1
      && added[0].extraction == i && OldestEvidence(rows, row, i, added[0].candidate)
    else row.flagged == 0 && added == []
  }

  // the check, on rows that differ from those before in row i alone
  lemma FlagIsRight(t: Tables, before: seq<Extraction>, i: nat, pick: Option<nat>)
    requires i < |t.rows| && Review.PickFits(t.rows, i, pick) && t.rows[i].flagged == 0
    requires |before| <= |t.rows| && forall j :: 0 <= j < |t.rows| && j != i ==> j < |before| && before[j] == t.rows[j]
    ensures var f := Review.Flag(t, i, pick);
            && f.rows == t.rows[i := f.rows[i]] && |t.matches| <= |f.matches|
            && f.matches == t.matches + f.matches[|t.matches|..]
            && FlaggedRight(before, f.rows[i], i, f.matches[|t.matches|..])
  {
    var f := Review.Flag(t, i, pick);
    var row := f.rows[i];
    forall j | 0 <= j < |before| ensures Evidence(before, row, i, j) <==> Review.Candidate(t.rows, i, j) {
    }
    if Review.Checked(t.rows[i]) && pick.Some? {
      assert f.matches[|t.matches|..] == [Match(i, pick.value)];
      assert Evidence(before, row, i, pick.value);
      assert OldestEvidence(before, row, i, pick.value);
    } else {
      assert f.matches[|t.matches|..] == [];
    }
  }

  lemma AcceptFlags(t: Tables, m: Message, at: int, res: Result, pick: Option<nat>)
    requires m.alias in t.aliases && Ingest.PickFits(t, m, at, res, pick)
    ensures var u := Accept(t, m, at, res, pick); var n := |t.rows|;
            if Review.Financial(res)
            then |u.rows| == n + 1 && u.rows[..n] == t.rows && |t.matches| <= |u.matches| &&
                 u.matches[..|t.matches|] == t.matches &&
                 FlaggedRight(t.rows, u.rows[n], n, u.matches[|t.matches|..])
            else u.rows == t.rows && u.matches == t.matches
  {
    if Review.Financial(res) {
      var w := WithMail(t, m, at);
      var rows := Review.RowsWith(w, |t.emails|, t.aliases[m.alias].user, res, at);
      FlagIsRight(w.(rows := rows), t.rows, |t.rows|, pick);
      var f := Review.Flag(w.(rows := rows), |t.rows|, pick);
      var u := Accept(t, m, at, res, pick);
      assert u.rows == f.rows && u.matches == f.matches;
    }
  }

  /** A new row is flagged exactly when it is pending with a fingerprint and some pending or
      confirmed row of its user has that fingerprint, and then with one match, at the oldest
      of them. */
  lemma DeliveryFlags(p: Policy, s: World, step: Step)
    requires step.Handle? && Enabled(p, s, step)
    ensures var t, u := s.t, Next(p, s, step).t; var n := |t.rows|;
            || (u.rows == t.rows && u.matches == t.matches)
            || (|u.rows| == n + 1 && u.rows[..n] == t.rows && |t.matches| <= |u.matches| &&
                u.matches[..|t.matches|] == t.matches &&
                FlaggedRight(t.rows, u.rows[n], n, u.matches[|t.matches|..]))
  {
    HandleStep(p, s, step);
    var m, at := s.sent[step.flight.key], step.flight.at;
    if Stored(p, s, Next(p, s, step), m, step) {
      AcceptFlags(s.t, m, at, Run(step.reading), step.pick);
    }
  }

  /** The same for a reprocessed row, whose old matches go first. */
  lemma ReprocessFlags(t: Tables, store: set<string>, i: nat, r: Reading, pick: Option<nat>)
    requires Review.Reprocessable(t, store, i, Run(r))
    requires Review.PickFits(t.rows[i := Review.Redone(t.rows[i], Run(r))], i, pick)
    ensures var u := Review.Reprocess(t, store, i, Run(r), pick).0; var kept := Review.Without(t.matches, i);
            && |u.rows| == |t.rows| && u.rows == t.rows[i := u.rows[i]] && |kept| <= |u.matches|
            && u.matches[..|kept|] == kept && FlaggedRight(t.rows, u.rows[i], i, u.matches[|kept|..])
  {
    var row := Review.Redone(t.rows[i], Run(r));
    var status := if row.status == Pending then Processed else Failed;
    var plain := t.(rows := t.rows[i := row], matches := Review.Without(t.matches, i),
                    emails := t.emails[row.email := t.emails[row.email].(status := status)]);
    FlagIsRight(plain, t.rows, i, pick);
    assert Review.Reprocess(t, store, i, Run(r), pick).0 == Review.Flag(plain, i, pick);
  }

  /** So a row whose only equals are dismissed is no duplicate: delivered or reprocessed, it
      stays unflagged and gets no match. */
  lemma DismissedIsNoEvidence(rows: seq<Extraction>, row: Extraction, i: nat, added: seq<Match>)
    requires FlaggedRight(rows, row, i, added)
    requires forall j ::
      0 <= j < |rows| && j != i && rows[j].fingerprint == row.fingerprint && rows[j].user == row.user ==>
      rows[j].status == Dismissed
    ensures row.flagged == 0 && added == []
  {
  }

  // ---- over runs -----------------------------------------------------------------------------------

  // a match on a row as it is after a check, with its evidence in the rows before
  predicate Found(before: seq<Extraction>, after: seq<Extraction>, m: Match) {
    && m.extraction < |after| && after[m.extraction].status == Pending && after[m.extraction].flagged == 1
    && OldestEvidence(before, after[m.extraction], m.extraction, m.candidate)
  }

  // step n of the run found that match
  ghost predicate FoundAt(p: Policy, steps: seq<Step>, n: nat, m: Match) {
    && n < |steps| && (steps[n].Handle? || steps[n].Reprocess?)
    && Valid(p, START, steps[..n]) && Valid(p, START, steps[..n + 1])
    && Found(End(p, START, steps[..n]).t.rows, End(p, START, steps[..n + 1]).t.rows, m)
  }

  ghost predicate WasFound(p: Policy, steps: seq<Step>, m: Match) {
    exists n :: 0 <= n < |steps| && FoundAt(p, steps, n, m)
  }

  // a match that is there after a step was there before, or the step found it
  lemma NewMatches(p: Policy, s: World, step: Step, m: Match)
    requires Enabled(p, s, step) && m in Next(p, s, step).t.matches
    ensures m in s.t.matches || ((step.Handle? || step.Reprocess?) && Found(s.t.rows, Next(p, s, step).t.rows, m))
  {
    if step.Handle? {
      DeliveryFlags(p, s, step);
      AddedAreFound(s.t, Next(p, s, step).t, s.t.matches, |s.t.rows|, m);
    } else if step.Reprocess? {
      ReprocessFinds(s.t, s.store, step.row, step.reading, step.pick, m);
    } else if step.Confirm? || step.Dismiss? {
      ReviewRuns.DecisionIs(s.t, step.row, if step.Confirm? then step.category else step.reason);
    } else {
      ReviewRuns.OtherStepsUnrelated(p, s, step);
    }
  }

  lemma AddedAreFound(t: Tables, u: Tables, kept: seq<Match>, i: nat, m: Match)
    requires m in u.matches
    requires u.matches == kept ||
             (i < |u.rows| && |kept| <= |u.matches| && u.matches[..|kept|] == kept &&
              FlaggedRight(t.rows, u.rows[i], i, u.matches[|kept|..]))
    ensures m in kept || Found(t.rows, u.rows, m)
  {
    if u.matches != kept {
      FromTail(kept, u.matches, m);
    }
  }

  lemma ReprocessFinds(t: Tables, store: set<string>, i: nat, r: Reading, pick: Option<nat>, m: Match)
    requires Review.Reprocessable(t, store, i, Run(r)) ==>
               Review.PickFits(t.rows[i := Review.Redone(t.rows[i], Run(r))], i, pick)
    requires m in Review.Reprocess(t, store, i, Run(r), pick).0.matches
    ensures m in t.matches || Found(t.rows, Review.Reprocess(t, store, i, Run(r), pick).0.rows, m)
  {
    if Review.Reprocessable(t, store, i, Run(r)) {
      ReprocessFlags(t, store, i, r, pick);
      Review.MatchesOfWithout(t.matches, i, i);
      AddedAreFound(t, Review.Reprocess(t, store, i, Run(r), pick).0, Review.Without(t.matches, i), i, m);
    }
  }

  lemma FromTail(front: seq<Match>, all: seq<Match>, m: Match)
    requires |front| <= |all| && all[..|front|] == front && m in all
    ensures m in front || m in all[|front|..]
  {
    assert all == all[..|front|] + all[|front|..];
  }

  /** Over every run, with decisions and reprocessing in any order: each match row was found
      by a delivery or a reprocessing, and pointed at a row that was pending or confirmed
      then, of the same user and fingerprint, and the oldest such. */
  lemma {:induction false} MatchesHaveEvidence(p: Policy, steps: seq<Step>, m: Match)
    requires Valid(p, START, steps) && m in End(p, START, steps).t.matches
    ensures WasFound(p, steps, m)
    decreases |steps|
  {
    if steps == [] {
    } else {
      var front, n := steps[..|steps| - 1], |steps| - 1;
      LastStep(p, START, steps);
      NewMatches(p, End(p, START, front), steps[n], m);
      if m in End(p, START, front).t.matches {
        MatchesHaveEvidence(p, front, m);
        FoundBefore(p, steps, m);
      } else {
        assert steps[..n + 1] == steps;
        assert FoundAt(p, steps, n, m);
      }
    }
  }

  lemma FoundBefore(p: Policy, steps: seq<Step>, m: Match)
    requires steps != [] && WasFound(p, steps[..|steps| - 1], m)
    ensures WasFound(p, steps, m)
  {
    var front := steps[..|steps| - 1];
    var n :| 0 <= n < |front| && FoundAt(p, front, n, m);
    assert front[..n] == steps[..n] && front[..n + 1] == steps[..n + 1] && front[n] == steps[n];
    assert FoundAt(p, steps, n, m);
  }
}
