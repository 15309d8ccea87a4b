/** When a POST's batch began, and which configs were registered by then. */
module Receivers {
  import opened Schema
  import opened Ingest
  import opened World
  import opened Runs
  import opened OutboxRuns
  import Outbox
  import Theorems

  // ---- moments -----------------------------------------------------------------------------

  // a batch that claimed event k began at that time, in that run, with so many configs
  // registered
  predicate BeganAt(p: Policy, steps: seq<Step>, at: int, since: nat, k: nat) {
    exists n :: 0 <= n < |steps| && ClaimsAt(p, steps, n, at, since, k)
  }

  predicate ClaimsAt(p: Policy, steps: seq<Step>, n: nat, at: int, since: nat, k: nat) {
    n < |steps| && steps[n].Claim? && k in steps[n].rows && Valid(p, START, steps[..n]) &&
    End(p, START, steps[..n]).clock == at && |End(p, START, steps[..n]).configs| == since
  }

  lemma BeganBefore(p: Policy, steps: seq<Step>, at: int, since: nat, k: nat)
    requires steps != [] && BeganAt(p, steps[..|steps| - 1], at, since, k)
    ensures BeganAt(p, steps, at, since, k)
  {
    var front := steps[..|steps| - 1];
    var n :| 0 <= n < |front| && ClaimsAt(p, front, n, at, since, k);
    assert front[..n] == steps[..n] && front[n] == steps[n];
    assert ClaimsAt(p, steps, n, at, since, k);
  }

  ghost predicate EventDated(p: Policy, steps: seq<Step>, k: nat, e: Event) {
    forall t :: t in e.tries + e.lost ==> BeganAt(p, steps, t.at, t.since, k)
  }

  // every POST and every open batch has such a moment
  ghost predicate Dated(p: Policy, steps: seq<Step>, s: World) {
    && (forall k :: 0 <= k < |s.t.outbox| ==> EventDated(p, steps, k, s.t.outbox[k]))
    && (forall lease, k :: lease in s.polls && k in lease.rows ==> BeganAt(p, steps, lease.now, lease.since, k))
  }

  lemma DatedBefore(p: Policy, steps: seq<Step>, s: World)
    requires steps != [] && Dated(p, steps[..|steps| - 1], s)
    ensures Dated(p, steps, s)
  {
    forall at, since, k | BeganAt(p, steps[..|steps| - 1], at, since, k) ensures BeganAt(p, steps, at, since, k) {
      BeganBefore(p, steps, at, since, k);
    }
    forall k | 0 <= k < |s.t.outbox| ensures EventDated(p, steps, k, s.t.outbox[k]) {
      assert EventDated(p, steps[..|steps| - 1], k, s.t.outbox[k]);
    }
  }

  // the POSTs a step adds belong to its batch
  predicate TriesFrom(a: Event, b: Event, at: int, since: nat) {
    forall t :: t in b.tries + b.lost ==> t in a.tries + a.lost || (t.at == at && t.since == since)
  }

  lemma HandledTries(e: Event, turn: Outbox.Turn, view: Outbox.View, a: Outbox.Answer)
    ensures TriesFrom(e, Outbox.Handled(e, turn, view, a), turn.now, turn.since)
    ensures TriesFrom(e, Outbox.PostLost(e, turn, view, a), turn.now, turn.since)
  {
  }

  lemma BatchTries(events: seq<Event>, b: Outbox.Batch, done: nat)
    requires Outbox.BatchShape(b, events)
    ensures forall k :: 0 <= k < |events| ==> TriesFrom(events[k], Outbox.Polled(events, b)[k], b.now, b.since)
    ensures forall k :: 0 <= k < |events| ==> TriesFrom(events[k], Outbox.Crashed(events, b, done)[k], b.now, b.since)
  {
    forall k | 0 <= k < |events|
      ensures TriesFrom(events[k], Outbox.Polled(events, b)[k], b.now, b.since)
      ensures TriesFrom(events[k], Outbox.Crashed(events, b, done)[k], b.now, b.since)
    {
      if k in b.claim {
        var i := Outbox.Place(b.claim, k);
        HandledTries(events[k], b.Times(), Outbox.ViewFor(events, b, i), b.answers[i]);
      }
    }
  }

  // after the last step every event keeps its POSTs, or gains those of the step's batch
  lemma StepTries(p: Policy, s: World, step: Step)
    requires Enabled(p, s, step)
    ensures var a, b := s.t.outbox, Next(p, s, step).t.outbox;
            && |a| <= |b|
            && forall k :: 0 <= k < |a| ==>
                 b[k] == a[k] || ((step.Poll? || step.PollCrash?) && k in step.batch.claim &&
                                  TriesFrom(a[k], b[k], step.batch.now, step.batch.since))
  {
    OutboxGrows(p, s, step);
    if step.Poll? {
      OtherStepsQueue(p, s, step);
      BatchTries(s.t.outbox, step.batch, 0);
    } else if step.PollCrash? {
      OtherStepsQueue(p, s, step);
      BatchTries(s.t.outbox, step.batch, step.done);
    }
  }

  lemma DatedEvents(p: Policy, steps: seq<Step>, s: World, step: Step)
    requires Enabled(p, s, step) && Dated(p, steps, s)
    ensures var b := Next(p, s, step).t.outbox; forall k :: 0 <= k < |b| ==> EventDated(p, steps, k, b[k])
  {
    StepTries(p, s, step);
    NewEventsBare(p, s, step);
    LeasesMove(p, s, step);
    var a, b := s.t.outbox, Next(p, s, step).t.outbox;
    forall k | 0 <= k < |b| ensures EventDated(p, steps, k, b[k]) {
      if k < |a| {
        assert EventDated(p, steps, k, a[k]);
      }
    }
  }

  lemma DatedStep(p: Policy, steps: seq<Step>, s: World, s': World)
    requires steps != [] && Valid(p, START, steps) && Valid(p, START, steps[..|steps| - 1])
    requires s == End(p, START, steps[..|steps| - 1]) && s' == End(p, START, steps)
    requires Dated(p, steps[..|steps| - 1], s)
    ensures Dated(p, steps, s')
  {
    var n, last := |steps| - 1, steps[|steps| - 1];
    LastStep(p, START, steps);
    DatedBefore(p, steps, s);
    DatedEvents(p, steps, s, last);
    LeasesMove(p, s, last);
    if last.Claim? {
      assert forall k :: k in last.rows ==> ClaimsAt(p, steps, n, s.clock, |s.configs|, k);
    }
  }

  lemma {:induction false} DatedRun(p: Policy, steps: seq<Step>)
    requires Valid(p, START, steps)
    ensures Dated(p, steps, End(p, START, steps))
    decreases |steps|
  {
    if steps == [] {
    } else {
      LastStep(p, START, steps);
      DatedRun(p, steps[..|steps| - 1]);
      DatedStep(p, steps, End(p, START, steps[..|steps| - 1]), End(p, START, steps));
    }
  }

  lemma {:induction false} ConfigsGrowFrom(p: Policy, steps: seq<Step>, n: nat)
    requires Valid(p, START, steps) && n <= |steps|
    ensures Valid(p, START, steps[..n]) && End(p, START, steps[..n]).configs <= End(p, START, steps).configs
    decreases |steps|
  {
    if n == |steps| {
      assert steps[..n] == steps;
    } else {
      var front := steps[..|steps| - 1];
      LastStep(p, START, steps);
      ConfigsGrowFrom(p, front, n);
      assert front[..n] == steps[..n];
      LeasesMove(p, End(p, START, front), steps[|steps| - 1]);
    }
  }

  // the configs a run registers, in order
  function Registered(steps: seq<Step>): seq<Config> {
    if steps == [] then []
    else
      var n := |steps| - 1;
      Registered(steps[..n]) + if steps[n].Configure? then [steps[n].config] else []
  }

  lemma ConfigStep(p: Policy, s: World, step: Step)
    requires Enabled(p, s, step)
    ensures Next(p, s, step).configs == s.configs + if step.Configure? then [step.config] else []
  {
  }

  /** The config table of every run is what the run registered, in that order: none is lost,
      changed or invented. */
  lemma {:induction false} ConfigsAreRegistered(p: Policy, steps: seq<Step>)
    requires Valid(p, START, steps)
    ensures End(p, START, steps).configs == Registered(steps)
    decreases |steps|
  {
    if steps == [] {
    } else {
      var n := |steps| - 1;
      LastStep(p, START, steps);
      ConfigsAreRegistered(p, steps[..n]);
      ConfigStep(p, End(p, START, steps[..n]), steps[n]);
    }
  }

  /** No receiver is passed over: for every POST there is the step of the run that claimed
      its event, at the time the POST records, and the POST went to a config of the
      event's key at least as new as every config of that key registered by that moment. */
  lemma NoReceiverPassedOver(p: Policy, steps: seq<Step>, k: nat, try: Try)
    requires Valid(p, START, steps) && k < |End(p, START, steps).t.outbox|
    requires var e := End(p, START, steps).t.outbox[k]; try in e.tries + e.lost
    ensures exists n :: 0 <= n < |steps| && ClaimsAt(p, steps, n, try.at, try.since, k) &&
              End(p, START, steps[..n]).configs <= End(p, START, steps).configs
    ensures var s := End(p, START, steps); var e := s.t.outbox[k];
            e.alias in s.t.aliases && Theorems.SentToLatest(s.configs, s.t.aliases[e.alias].apiKey, try)
  {
    Theorems.PostsFollowTheKey(p, steps, k, try);
    DatedRun(p, steps);
    assert EventDated(p, steps, k, End(p, START, steps).t.outbox[k]);
    var n :| 0 <= n < |steps| && ClaimsAt(p, steps, n, try.at, try.since, k);
    ConfigsGrowFrom(p, steps, n);
  }
}
