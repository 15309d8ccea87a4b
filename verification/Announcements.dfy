/** What extraction events say: the row they announce, as it was when they were written. */
module Announcements {
  import opened Common
  import opened Schema
  import opened Ingest
  import opened World
  import opened Runs
  import opened Frames
  import OutboxRuns
  import Pipeline
  import Review

  // the event says of its row what the row says of itself
  predicate Truthful(e: Event, rows: seq<Extraction>) {
    e.kind.ExtractionEvent? ==>
      && e.kind.row < |rows|
      && var row := rows[e.kind.row];
         && e.kind.status == row.status && (e.kind.created <==> row.status == Pending)
         && e.kind.amount == Review.AmountText(row) && e.kind.flagged == row.flagged
         && e.alias == row.alias
  }

  // a step only adds events that are truthful after it, and only about its own new row
  lemma NewEventsTruthful(p: Policy, s: World, step: Step)
    requires Enabled(p, s, step)
    ensures var a, s' := s.t, Next(p, s, step);
            forall k :: |a.outbox| <= k < |s'.t.outbox| && s'.t.outbox[k].kind.ExtractionEvent? ==>
              && step.Handle? && Truthful(s'.t.outbox[k], s'.t.rows)
              && s'.t.outbox[k].kind.row == |a.rows| < |s'.t.rows|
  {
    if step.Handle? {
      HandleStep(p, s, step);
      var m, at := s.sent[step.flight.key], step.flight.at;
      if Stored(p, s, Next(p, s, step), m, step) {
        AcceptedTruthful(s.t, m, at, Pipeline.Run(step.reading), step.pick);
      }
    } else {
      OutboxRuns.OtherStepsQueue(p, s, step);
    }
  }

  lemma AcceptedTruthful(t: Tables, m: Message, at: int, res: Pipeline.Result, pick: Option<nat>)
    requires m.alias in t.aliases
    ensures var u := Accept(t, m, at, res, pick);
            && |t.outbox| <= |u.outbox|
            && forall k :: |t.outbox| <= k < |u.outbox| && u.outbox[k].kind.ExtractionEvent? ==>
                 Truthful(u.outbox[k], u.rows) && u.outbox[k].kind.row == |t.rows| < |u.rows|
  {
    AcceptWrites(t, m, at, res, pick);
    var u := Accept(t, m, at, res, pick);
    var work, first := WorkEvents(t, m, at, res, u.rows), FirstEvents(t, m, at);
    assert forall k :: 0 <= k < |work| ==> (t.outbox + work + first)[|t.outbox| + k] == work[k];
    forall k | |t.outbox| <= k < |u.outbox| && u.outbox[k].kind.ExtractionEvent?
      ensures Truthful(u.outbox[k], u.rows) && u.outbox[k].kind.row == |t.rows| < |u.rows|
    {
      assert k - |t.outbox| < |work|;
      assert u.outbox[k] == work[k - |t.outbox|];
    }
  }

  // events keep what they say
  lemma KindsKept(p: Policy, s: World, step: Step)
    requires Enabled(p, s, step) && RowsHaveMails(s.t)
    ensures var a, b := s.t.outbox, Next(p, s, step).t.outbox;
            && |a| <= |b| && forall k :: 0 <= k < |a| ==> b[k].kind == a[k].kind && b[k].alias == a[k].alias
  {
    if step.Handle? {
      OutboxRuns.OutboxGrows(p, s, step);
    } else {
      OtherSteps(p, s, step);
    }
  }

  // ---- over runs -------------------------------------------------------------------------

  // step n of the run is a delivery that wrote event k, truthful of the rows it left
  ghost predicate WrittenAt(p: Policy, steps: seq<Step>, n: nat, k: nat, e: Event) {
    && n < |steps| && steps[n].Handle? && Valid(p, START, steps[..n]) && Valid(p, START, steps[..n + 1])
    && var before, after := End(p, START, steps[..n]).t, End(p, START, steps[..n + 1]).t;
       && |before.outbox| <= k < |after.outbox| && after.outbox[k].kind == e.kind && after.outbox[k].alias == e.alias
       && Truthful(after.outbox[k], after.rows)
       && (e.kind.ExtractionEvent? ==> e.kind.row == |before.rows| < |after.rows|)
  }

  ghost predicate WasWritten(p: Policy, steps: seq<Step>, k: nat, e: Event) {
    exists n :: 0 <= n < |steps| && WrittenAt(p, steps, n, k, e)
  }

  ghost predicate AllWritten(p: Policy, steps: seq<Step>, s: World) {
    forall k :: 0 <= k < |s.t.outbox| && s.t.outbox[k].kind.ExtractionEvent? ==> WasWritten(p, steps, k, s.t.outbox[k])
  }

  lemma WrittenBefore(p: Policy, steps: seq<Step>, k: nat, e: Event, e': Event)
    requires steps != [] && WasWritten(p, steps[..|steps| - 1], k, e) && e'.kind == e.kind && e'.alias == e.alias
    ensures WasWritten(p, steps, k, e')
  {
    var front := steps[..|steps| - 1];
    var n :| 0 <= n < |front| && WrittenAt(p, front, n, k, e);
    assert front[..n] == steps[..n] && front[..n + 1] == steps[..n + 1] && front[n] == steps[n];
    assert WrittenAt(p, steps, n, k, e');
  }

  lemma WrittenNow(p: Policy, steps: seq<Step>, s: World, s': World, k: nat)
    requires steps != [] && Valid(p, START, steps) && Valid(p, START, steps[..|steps| - 1])
    requires s == End(p, START, steps[..|steps| - 1]) && s' == End(p, START, steps)
    requires Enabled(p, s, steps[|steps| - 1]) && s' == Next(p, s, steps[|steps| - 1])
    requires |s.t.outbox| <= k < |s'.t.outbox| && s'.t.outbox[k].kind.ExtractionEvent?
    ensures WasWritten(p, steps, k, s'.t.outbox[k])
  {
    var n := |steps| - 1;
    NewEventsTruthful(p, s, steps[n]);
    assert steps[..n + 1] == steps;
    assert WrittenAt(p, steps, n, k, s'.t.outbox[k]);
  }

  lemma WrittenStep(p: Policy, steps: seq<Step>, s: World, s': World)
    requires steps != [] && Valid(p, START, steps) && Valid(p, START, steps[..|steps| - 1])
    requires s == End(p, START, steps[..|steps| - 1]) && s' == End(p, START, steps) && RowsHaveMails(s.t)
    requires AllWritten(p, steps[..|steps| - 1], s)
    ensures AllWritten(p, steps, s')
  {
    LastStep(p, START, steps);
    KindsKept(p, s, steps[|steps| - 1]);
    forall k | 0 <= k < |s'.t.outbox| && s'.t.outbox[k].kind.ExtractionEvent?
      ensures WasWritten(p, steps, k, s'.t.outbox[k])
    {
      if k < |s.t.outbox| {
        WrittenBefore(p, steps, k, s.t.outbox[k], s'.t.outbox[k]);
      } else {
        WrittenNow(p, steps, s, s', k);
      }
    }
  }
}
