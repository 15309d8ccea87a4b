/** When an event is due, in numbers: what the last committed batch that took it up, and
    nothing else, has made of it. */
module Retries {
  import opened Common
  import opened Schema
  import opened Ingest
  import opened World
  import opened Runs
  import OutboxRuns
  import Outbox
  import Theorems
  import Waiting

  // seconds from the batch of the nth failed attempt to the next attempt
  function Delay(n: nat): nat
    requires 1 <= n <= 4
  {
    match n
    case 1 => 60
    case 2 => 300
    case 3 => 900
    case _ => 3600
  }

  // what a batch that began at `now` made of `e`, by the receiver it found and its answer
  predicate Turned(e: Event, h: Event, now: int, url: Option<string>, a: Outbox.Answer) {
    var n := |e.tries| + 1;
    && h.apiKey == e.apiKey
    && if url.None? then h == e.(nextAt := now + 60, lost := h.lost)
       else
         && |h.tries| == n && h.tries[..n - 1] == e.tries
         && h.tries[n - 1].at == now && h.tries[n - 1].ok == a.ok && h.tries[n - 1].url == url.value
         && h.attempts == n && h.target == url
         && if a.ok then h.status == Delivered && h.deliveredAt == Some(now) && h.lastError == None
            else
              && h.lastError == Some(if |a.info| <= 1000 then a.info else a.info[..1000])
              && if n < 5 then h.status == Waiting && h.nextAt == now + Delay(n) else h.status == GivenUp
  }

  lemma HandledTurns(e: Event, turn: Outbox.Turn, view: Outbox.View, a: Outbox.Answer)
    requires Outbox.Sound(e) && e.status == Waiting
    ensures Turned(e, Outbox.Handled(e, turn, view, a), turn.now, Outbox.GetConfig(view, e.apiKey), a)
  {
    var url := Outbox.GetConfig(view, e.apiKey);
    if url.Some? {
      var h := Outbox.Handled(e, turn, view, a);
      assert h.tries == e.tries + [Outbox.PostOf(turn, url.value, view, a)];
      assert Outbox.BACKOFF == [60, 300, 900, 3600];
    }
  }

  // batch b took up row k at place i: the receiver is looked up in the view of the first
  // claimed row with the same key, the answer is the row's own
  predicate TurnOf(events: seq<Event>, b: Outbox.Batch, k: nat, h: Event, i: nat, j: nat)
    requires Outbox.BatchShape(b, events)
  {
    && k < |events| && j <= i < |b.claim| && b.claim[i] == k
    && events[b.claim[j]].apiKey == events[k].apiKey
    && (forall x :: 0 <= x < j ==> events[b.claim[x]].apiKey != events[k].apiKey)
    && Turned(events[k], h, b.now, Outbox.GetConfig(b.views[j], events[k].apiKey), b.answers[i])
  }

  lemma PolledTurns(events: seq<Event>, b: Outbox.Batch, k: nat) returns (i: nat, j: nat)
    requires Outbox.BatchShape(b, events) && k in b.claim
    requires k < |events| && Outbox.Sound(events[k]) && events[k].status == Waiting
    ensures TurnOf(events, b, k, Outbox.Polled(events, b)[k], i, j)
  {
    i := Outbox.Place(b.claim, k);
    j := Outbox.FirstOfKey(events, b.claim, events[k].apiKey);
    HandledTurns(events[k], b.Times(), Outbox.ViewFor(events, b, i), b.answers[i]);
  }

  // the batch reached row k, at place i, and had found a receiver for its key, at place j
  predicate SentBefore(events: seq<Event>, b: Outbox.Batch, done: nat, k: nat, i: nat, j: nat)
    requires Outbox.BatchShape(b, events) && k < |events|
  {
    && j <= i < |b.claim| && i < done && b.claim[i] == k && events[b.claim[j]].apiKey == events[k].apiKey
    && (forall x :: 0 <= x < j ==> events[b.claim[x]].apiKey != events[k].apiKey)
    && Outbox.GetConfig(b.views[j], events[k].apiKey).Some?
  }

  /** A crashed batch has sent what it had got to, one POST per row with a receiver, and
      recorded nothing. */
  lemma CrashOnlySends(events: seq<Event>, b: Outbox.Batch, done: nat, k: nat)
    requires Outbox.BatchShape(b, events) && k < |events|
    ensures var e, c := events[k], Outbox.Crashed(events, b, done)[k];
            && c == e.(lost := c.lost) && |c.lost| <= |e.lost| + 1 && c.lost[..|e.lost|] == e.lost
            && (|c.lost| == |e.lost| + 1 <==> exists i, j :: SentBefore(events, b, done, k, i, j))
            && (|c.lost| == |e.lost| + 1 ==> c.lost[|e.lost|].at == b.now)
  {
    var e, c := events[k], Outbox.Crashed(events, b, done)[k];
    if k in b.claim {
      var i := Outbox.Place(b.claim, k);
      var j := Outbox.FirstOfKey(events, b.claim, e.apiKey);
      assert i < done && Outbox.GetConfig(b.views[j], e.apiKey).Some? ==> SentBefore(events, b, done, k, i, j);
    }
  }

  // ---- over runs -------------------------------------------------------------------------------

  // the step commits a batch with row k
  predicate Takes(step: Step, k: nat) {
    step.Poll? && k in step.batch.claim
  }

  // step n did, and no later step
  predicate LastTurn(steps: seq<Step>, n: nat, k: nat) {
    n < |steps| && Takes(steps[n], k) && forall m :: n < m < |steps| ==> !Takes(steps[m], k)
  }

  predicate NeverTurned(steps: seq<Step>, k: nat) {
    forall m :: 0 <= m < |steps| ==> !Takes(steps[m], k)
  }

  lemma NeverTurnedYet(steps: seq<Step>, k: nat)
    requires steps != [] && NeverTurned(steps[..|steps| - 1], k) && !Takes(steps[|steps| - 1], k)
    ensures NeverTurned(steps, k)
  {
    forall m | 0 <= m < |steps| ensures !Takes(steps[m], k) {
      assert m < |steps| - 1 ==> steps[m] == steps[..|steps| - 1][m];
    }
  }

  lemma LastTurnYet(steps: seq<Step>, n: nat, k: nat)
    requires steps != [] && LastTurn(steps[..|steps| - 1], n, k) && !Takes(steps[|steps| - 1], k)
    ensures LastTurn(steps, n, k)
  {
    forall m | n < m < |steps| ensures !Takes(steps[m], k) {
      assert m < |steps| - 1 ==> steps[m] == steps[..|steps| - 1][m];
    }
  }

  // what later steps leave of an event that no batch takes up
  predicate SameTurn(a: Event, b: Event) {
    b == a.(lost := b.lost)
  }

  // the event as it stands is what step n's batch made of it
  ghost predicate TurnedAt(p: Policy, steps: seq<Step>, n: nat, k: nat, e: Event) {
    && LastTurn(steps, n, k) && Valid(p, START, steps[..n])
    && var events, b := End(p, START, steps[..n]).t.outbox, steps[n].batch;
       Outbox.BatchShape(b, events) && exists i, j :: TurnOf(events, b, k, e, i, j)
  }

  // or no batch ever had it, and it is due from the start of the delivery that wrote it
  ghost predicate FreshAt(p: Policy, steps: seq<Step>, n: nat, k: nat, e: Event) {
    && NeverTurned(steps, k) && n < |steps| && steps[n].Handle?
    && Valid(p, START, steps[..n]) && Valid(p, START, steps[..n + 1])
    && |End(p, START, steps[..n]).t.outbox| <= k < |End(p, START, steps[..n + 1]).t.outbox|
    && e.status == Waiting && e.tries == [] && e.nextAt == steps[n].flight.at
  }

  ghost predicate Timed(p: Policy, steps: seq<Step>, k: nat, e: Event) {
    exists n :: 0 <= n < |steps| && (TurnedAt(p, steps, n, k, e) || FreshAt(p, steps, n, k, e))
  }

  // what a step does to an event it is not the batch of
  lemma OthersKeepTurn(p: Policy, s: World, step: Step, k: nat)
    requires Enabled(p, s, step) && k < |s.t.outbox| && !Takes(step, k)
    ensures var s' := Next(p, s, step); k < |s'.t.outbox| && SameTurn(s.t.outbox[k], s'.t.outbox[k])
  {
    if step.Handle? {
      OutboxRuns.OutboxGrows(p, s, step);
    } else {
      OutboxRuns.OtherStepsQueue(p, s, step);
      if step.PollCrash? {
        CrashOnlySends(s.t.outbox, step.batch, step.done, k);
      }
    }
  }

  lemma TurnKept(events: seq<Event>, b: Outbox.Batch, k: nat, e: Event, e': Event)
    requires Outbox.BatchShape(b, events) && SameTurn(e, e')
    requires exists i, j :: TurnOf(events, b, k, e, i, j)
    ensures exists i, j :: TurnOf(events, b, k, e', i, j)
  {
    var i, j :| TurnOf(events, b, k, e, i, j);
    assert TurnOf(events, b, k, e', i, j);
  }

  lemma TurnedBefore(p: Policy, steps: seq<Step>, n: nat, k: nat, e: Event, e': Event)
    requires steps != [] && TurnedAt(p, steps[..|steps| - 1], n, k, e) && SameTurn(e, e')
    requires !Takes(steps[|steps| - 1], k)
    ensures TurnedAt(p, steps, n, k, e')
  {
    var front := steps[..|steps| - 1];
    assert front[..n] == steps[..n] && front[n] == steps[n];
    LastTurnYet(steps, n, k);
    TurnKept(End(p, START, front[..n]).t.outbox, front[n].batch, k, e, e');
  }

  lemma TimedBefore(p: Policy, steps: seq<Step>, k: nat, e: Event, e': Event)
    requires steps != [] && Timed(p, steps[..|steps| - 1], k, e) && SameTurn(e, e')
    requires !Takes(steps[|steps| - 1], k)
    ensures Timed(p, steps, k, e')
  {
    var front := steps[..|steps| - 1];
    var n :| 0 <= n < |front| && (TurnedAt(p, front, n, k, e) || FreshAt(p, front, n, k, e));
    assert front[..n] == steps[..n] && front[..n + 1] == steps[..n + 1] && front[n] == steps[n];
    if TurnedAt(p, front, n, k, e) {
      TurnedBefore(p, steps, n, k, e, e');
    } else {
      NeverTurnedYet(steps, k);
      assert FreshAt(p, steps, n, k, e');
    }
  }

  lemma TimedNow(p: Policy, steps: seq<Step>, s: World, k: nat)
    requires steps != [] && Valid(p, START, steps[..|steps| - 1]) && s == End(p, START, steps[..|steps| - 1])
    requires Theorems.Good(p, s) && Enabled(p, s, steps[|steps| - 1]) && k < |s.t.outbox|
    requires Takes(steps[|steps| - 1], k)
    ensures k < |Next(p, s, steps[|steps| - 1]).t.outbox|
    ensures Timed(p, steps, k, Next(p, s, steps[|steps| - 1]).t.outbox[k])
  {
    var n := |steps| - 1;
    var b, events := steps[n].batch, s.t.outbox;
    assert OutboxRuns.LeaseSound(s, b.Held());
    Outbox.ClaimedAreDue(events, b.now, b.claim);
    assert Outbox.Intact(events[k], s.configs);
    var i, j := PolledTurns(events, b, k);
    OutboxRuns.OtherStepsQueue(p, s, steps[n]);
    assert TurnedAt(p, steps, n, k, Outbox.Polled(events, b)[k]);
  }

  lemma TimedFresh(p: Policy, steps: seq<Step>, s: World, k: nat)
    requires steps != [] && Valid(p, START, steps) && Valid(p, START, steps[..|steps| - 1])
    requires s == End(p, START, steps[..|steps| - 1]) && Enabled(p, s, steps[|steps| - 1])
    requires End(p, START, steps) == Next(p, s, steps[|steps| - 1])
    requires |s.t.outbox| <= k < |End(p, START, steps).t.outbox| && NeverTurned(steps, k)
    ensures Timed(p, steps, k, End(p, START, steps).t.outbox[k])
  {
    var n := |steps| - 1;
    Waiting.InsertsOf(p, s, steps[n]);
    OutboxRuns.NewEventsBare(p, s, steps[n]);
    assert steps[..n + 1] == steps;
    assert FreshAt(p, steps, n, k, End(p, START, steps).t.outbox[k]);
  }

  // a batch claims rows that are there
  lemma TurnsExist(p: Policy, s: World, step: Step, k: nat)
    requires Enabled(p, s, step) && Takes(step, k)
    ensures k < |s.t.outbox|
  {
    assert step.batch.claim[Outbox.Place(step.batch.claim, k)] == k;
  }

  // no batch takes up an event before it is there
  lemma {:induction false} NotBefore(p: Policy, steps: seq<Step>, k: nat)
    requires Valid(p, START, steps) && k >= |End(p, START, steps).t.outbox|
    ensures NeverTurned(steps, k)
    decreases |steps|
  {
    if steps == [] {
    } else {
      var front := steps[..|steps| - 1];
      LastStep(p, START, steps);
      var s := End(p, START, front);
      OutboxRuns.OutboxGrows(p, s, steps[|steps| - 1]);
      NotBefore(p, front, k);
      NewerNeverTurned(p, steps, s, k);
    }
  }

  lemma NewerNeverTurned(p: Policy, steps: seq<Step>, s: World, k: nat)
    requires steps != [] && Enabled(p, s, steps[|steps| - 1]) && k >= |s.t.outbox|
    requires NeverTurned(steps[..|steps| - 1], k)
    ensures NeverTurned(steps, k)
  {
    var last := steps[|steps| - 1];
    if Takes(last, k) {
      TurnsExist(p, s, last, k);
    }
    NeverTurnedYet(steps, k);
  }

  lemma TimedStep(p: Policy, steps: seq<Step>, s: World, k: nat)
    requires steps != [] && Valid(p, START, steps) && Valid(p, START, steps[..|steps| - 1])
    requires s == End(p, START, steps[..|steps| - 1]) && Enabled(p, s, steps[|steps| - 1])
    requires End(p, START, steps) == Next(p, s, steps[|steps| - 1]) && Theorems.Good(p, s)
    requires k < |s.t.outbox| && Timed(p, steps[..|steps| - 1], k, s.t.outbox[k])
    ensures k < |End(p, START, steps).t.outbox| && Timed(p, steps, k, End(p, START, steps).t.outbox[k])
  {
    var last := steps[|steps| - 1];
    if Takes(last, k) {
      TimedNow(p, steps, s, k);
    } else {
      OthersKeepTurn(p, s, last, k);
      TimedBefore(p, steps, k, s.t.outbox[k], End(p, START, steps).t.outbox[k]);
    }
  }

  /** The whole schedule, over every run with crashes and any number of pollers: an event no
      committed batch has taken up is due from the start of the delivery that wrote it, and
      any other is what the last committed batch that took it up made of it. Without a
      receiver it is due 60 seconds after that batch began; a success settles it; after the
      first, second, third and fourth recorded failure it is due exactly 60, 300, 900 and
      3600 seconds after that batch began; the fifth gives it up. */
  lemma {:induction false} DueExactly(p: Policy, steps: seq<Step>, k: nat)
    requires Valid(p, START, steps) && k < |End(p, START, steps).t.outbox|
    ensures Timed(p, steps, k, End(p, START, steps).t.outbox[k])
    decreases |steps|
  {
    if steps == [] {
    } else {
      var front := steps[..|steps| - 1];
      LastStep(p, START, steps);
      Theorems.StartGood(p);
      Theorems.GoodRun(p, START, front);
      var s := End(p, START, front);
      if k < |s.t.outbox| {
        DueExactly(p, front, k);
        TimedStep(p, steps, s, k);
      } else {
        NotBefore(p, front, k);
        NewerNeverTurned(p, steps, s, k);
        TimedFresh(p, steps, s, k);
      }
    }
  }

  /** The times alone: an event that still waits after a recorded attempt, and was not put
      off since, is due exactly the nth delay after that attempt's batch began. */
  lemma RetriedOnTime(p: Policy, steps: seq<Step>, k: nat, m: nat)
    requires Valid(p, START, steps) && k < |End(p, START, steps).t.outbox| && LastTurn(steps, m, k)
    requires Valid(p, START, steps[..m]) && k < |End(p, START, steps[..m]).t.outbox|
    requires var e, before := End(p, START, steps).t.outbox[k], End(p, START, steps[..m]).t.outbox[k];
             e.status == Waiting && |before.tries| < |e.tries|
    ensures var e := End(p, START, steps).t.outbox[k]; var n := |e.tries|;
            1 <= n <= 4 && e.tries[n - 1].at == steps[m].batch.now && e.nextAt == e.tries[n - 1].at + Delay(n)
  {
    DueExactly(p, steps, k);
    var e := End(p, START, steps).t.outbox[k];
    TheLastTurn(p, steps, k, m, e);
    PostedDelay(End(p, START, steps[..m]).t.outbox, steps[m].batch, k, e);
  }

  lemma TheLastTurn(p: Policy, steps: seq<Step>, k: nat, m: nat, e: Event)
    requires Timed(p, steps, k, e) && LastTurn(steps, m, k)
    ensures TurnedAt(p, steps, m, k, e)
  {
    var n :| 0 <= n < |steps| && (TurnedAt(p, steps, n, k, e) || FreshAt(p, steps, n, k, e));
    assert n == m;
  }

  lemma PostedDelay(events: seq<Event>, b: Outbox.Batch, k: nat, e: Event)
    requires Outbox.BatchShape(b, events) && k < |events| && exists i, j :: TurnOf(events, b, k, e, i, j)
    requires e.status == Waiting && |events[k].tries| < |e.tries|
    ensures var n := |e.tries|; 1 <= n <= 4 && e.tries[n - 1].at == b.now && e.nextAt == b.now + Delay(n)
  {
    var i, j :| TurnOf(events, b, k, e, i, j);
  }
}
