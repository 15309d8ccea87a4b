/** How long a due event waits, however many pollers overlap and whatever is inserted,
    deferred or lost in crashes meanwhile. */
module Waiting {
  import opened Common
  import opened Schema
  import opened Ingest
  import opened World
  import opened Frames
  import opened Outbox
  import opened OutboxRuns
  import Pipeline
  import Theorems

  // the rows that can be claimed before, or together with, a row due at time t
  function Ahead(events: seq<Event>, t: int): set<nat> {
    set k: nat | k < |events| && events[k].status == Waiting && events[k].nextAt <= t
  }

  // rows inserted by a step that are due by t: their transaction began by then
  function EarlyIn(before: seq<Event>, after: seq<Event>, t: int): set<nat> {
    set k: nat | |before| <= k < |after| && after[k].nextAt <= t
  }

  function Early(p: Policy, s: World, steps: seq<Step>, t: int): nat
    requires Valid(p, s, steps)
    decreases |steps|
  {
    if steps == [] then 0
    else
      var s' := Next(p, s, steps[0]);
      |EarlyIn(s.t.outbox, s'.t.outbox, t)| + Early(p, s', steps[1..], t)
  }

  // the open batches, among those counted, after a step: a batch counts when no other
  // open batch held row k as it began
  function Counted(p: Policy, s: World, step: Step, k: nat, free: set<Lease>): set<Lease> {
    match step
    case Claim(rows) => if k in LockedRows(s) then free else free + {Lease(s.clock, |s.configs|, rows)}
    case Poll(b) => free - {b.Held()}
    case PollCrash(b, _) => free - {b.Held()}
    case _ => free
  }

  predicate Counts(step: Step, free: set<Lease>) {
    step.Poll? && step.batch.Held() in free
  }

  // how many of them commit in a run
  function Commits(p: Policy, s: World, steps: seq<Step>, k: nat, free: set<Lease>): nat
    requires Valid(p, s, steps)
    decreases |steps|
  {
    if steps == [] then 0
    else (if Counts(steps[0], free) then 1 else 0) +
         Commits(p, Next(p, s, steps[0]), steps[1..], k, Counted(p, s, steps[0], k, free))
  }

  // row k was attempted or deferred by a committed batch
  predicate Served(steps: seq<Step>, k: nat) {
    exists i :: 0 <= i < |steps| && steps[i].Poll? && k in steps[i].batch.claim
  }

  // a crashed batch leaves status and due time of every row
  lemma CrashLeaves(events: seq<Event>, b: Batch, done: nat, t: int)
    requires BatchShape(b, events)
    ensures Ahead(Crashed(events, b, done), t) == Ahead(events, t)
  {
  }

  // a committed batch lets no row in, and takes its rows out if it began at t or later
  lemma PollLeaves(events: seq<Event>, b: Batch, t: int)
    requires BatchShape(b, events) && DueClaim(events, b.now, b.claim)
    ensures Ahead(Polled(events, b), t) <= Ahead(events, t)
    ensures forall k :: k in Ahead(events, t) && k !in b.claim ==> k in Ahead(Polled(events, b), t)
    ensures b.now >= t ==> forall k :: k in b.claim ==> k !in Ahead(Polled(events, b), t)
  {
    ClaimedAreDue(events, b.now, b.claim);
    forall k: nat | k in b.claim
      ensures k in Ahead(Polled(events, b), t) ==> b.now < t && k in Ahead(events, t)
    {
      var i := Place(b.claim, k);
      HandledMovesOn(events[k], b.Times(), ViewFor(events, b, i), b.answers[i]);
    }
  }

  lemma GrowthLeaves(before: seq<Event>, after: seq<Event>, t: int)
    requires |before| <= |after| && forall k :: 0 <= k < |before| ==> after[k] == before[k]
    ensures Ahead(before, t) <= Ahead(after, t) <= Ahead(before, t) + EarlyIn(before, after, t)
  {
  }

  // what one step does to the rows ahead: only early inserts join, and only rows of a
  // committed batch leave
  lemma AheadStep(p: Policy, s: World, step: Step, t: int)
    requires Enabled(p, s, step) && LeasesSound(s)
    ensures var a, b := s.t.outbox, Next(p, s, step).t.outbox;
            && Ahead(b, t) <= Ahead(a, t) + EarlyIn(a, b, t)
            && (forall k :: k in Ahead(a, t) && !(step.Poll? && k in step.batch.claim) ==> k in Ahead(b, t))
            && (step.Poll? ==> Ahead(b, t) <= Ahead(a, t))
            && (step.Poll? && step.batch.now >= t ==> forall k :: k in step.batch.claim ==> k !in Ahead(b, t))
  {
    if step.Poll? {
      assert LeaseSound(s, step.batch.Held());
      OtherStepsQueue(p, s, step);
      PollLeaves(s.t.outbox, step.batch, t);
    } else if step.PollCrash? {
      OtherStepsQueue(p, s, step);
      CrashLeaves(s.t.outbox, step.batch, step.done, t);
    } else {
      OutboxGrows(p, s, step);
      GrowthLeaves(s.t.outbox, Next(p, s, step).t.outbox, t);
    }
  }

  // a batch that begins while row k is due and free takes the row, or twenty rows ahead
  predicate TakesTwenty(s: World, lease: Lease, t: int, k: nat) {
    k in lease.rows
    || (|lease.rows| == BATCH && lease.now >= t && forall i :: i in lease.rows ==> i in Ahead(s.t.outbox, t))
  }

  predicate FreeSound(s: World, free: set<Lease>, t: int, k: nat) {
    forall lease :: lease in free ==> lease in s.polls && TakesTwenty(s, lease, t, k)
  }

  lemma ClaimFillsUp(s: World, rows: seq<nat>, t: int, k: nat)
    requires CanClaim(s, rows) && s.clock >= t && k in Ahead(s.t.outbox, t) && k !in LockedRows(s)
    ensures TakesTwenty(s, Lease(s.clock, |s.configs|, rows), t, k)
  {
    if k !in rows {
      assert Due(s.t.outbox[k], s.clock);
      forall i | i in rows ensures i in Ahead(s.t.outbox, t) {
        assert rows[Place(rows, i)] == i;
      }
    }
  }

  lemma StillTakes(s: World, s': World, lease: Lease, t: int, k: nat)
    requires TakesTwenty(s, lease, t, k)
    requires forall i :: i in lease.rows && i in Ahead(s.t.outbox, t) ==> i in Ahead(s'.t.outbox, t)
    ensures TakesTwenty(s', lease, t, k)
  {
  }

  lemma FreeStep(p: Policy, s: World, step: Step, t: int, k: nat, free: set<Lease>)
    requires Enabled(p, s, step) && LeasesSound(s) && s.clock >= t && k in Ahead(s.t.outbox, t)
             && FreeSound(s, free, t, k)
    ensures FreeSound(Next(p, s, step), Counted(p, s, step, k, free), t, k)
  {
    var s' := Next(p, s, step);
    LeasesMove(p, s, step);
    AheadStep(p, s, step, t);
    if step.Claim? && k !in LockedRows(s) {
      ClaimFillsUp(s, step.rows, t, k);
    }
    forall lease | lease in Counted(p, s, step, k, free) && lease in free
      ensures TakesTwenty(s', lease, t, k)
    {
      assert step.Poll? ==> Apart(lease, step.batch.Held());
      StillTakes(s, s', lease, t, k);
    }
  }

  // a counted batch that does not serve the row takes twenty rows out of its way
  lemma AheadShrinks(p: Policy, s: World, step: Step, t: int, k: nat, free: set<Lease>)
    requires Enabled(p, s, step) && LeasesSound(s) && FreeSound(s, free, t, k) && k in Ahead(s.t.outbox, t)
    requires step.Poll? ==> k !in step.batch.claim
    ensures var a, b := s.t.outbox, Next(p, s, step).t.outbox;
            && k in Ahead(b, t)
            && |Ahead(b, t)| + (if Counts(step, free) then BATCH else 0) <= |Ahead(a, t)| + |EarlyIn(a, b, t)|
  {
    var a, b := s.t.outbox, Next(p, s, step).t.outbox;
    AheadStep(p, s, step, t);
    if Counts(step, free) {
      assert LeaseSound(s, step.batch.Held());
      var taken := SetOf(step.batch.claim);
      SubsetSize(Ahead(b, t), Ahead(a, t) - taken);
    } else {
      SubsetSize(Ahead(b, t), Ahead(a, t) + EarlyIn(a, b, t));
    }
  }

  lemma {:induction false} SetOf(claim: seq<nat>) returns (s: set<nat>)
    requires Distinct(claim)
    ensures |s| == |claim| && forall k :: k in s <==> k in claim
  {
    if claim == [] {
      s := {};
    } else {
      s := SetOf(claim[1..]);
      assert claim[0] !in claim[1..];
      s := s + {claim[0]};
      assert claim == [claim[0]] + claim[1..];
    }
  }

  lemma {:induction false} WaitEnds(p: Policy, s: World, steps: seq<Step>, t: int, k: nat, free: set<Lease>)
    requires Valid(p, s, steps) && LeasesSound(s) && FreeSound(s, free, t, k)
    requires s.clock >= t && k in Ahead(s.t.outbox, t)
    requires BATCH * Commits(p, s, steps, k, free) >= |Ahead(s.t.outbox, t)| + Early(p, s, steps, t)
    ensures Served(steps, k)
    decreases |steps|
  {
    assert |Ahead(s.t.outbox, t)| > 0;
    if steps == [] {
    } else if !(steps[0].Poll? && k in steps[0].batch.claim) {
      var s' := Next(p, s, steps[0]);
      AheadShrinks(p, s, steps[0], t, k, free);
      FreeStep(p, s, steps[0], t, k, free);
      LeasesStep(p, s, steps[0]);
      LeasesMove(p, s, steps[0]);
      WaitEnds(p, s', steps[1..], t, k, Counted(p, s, steps[0], k, free));
      var i :| 0 <= i < |steps[1..]| && steps[1..][i].Poll? && k in steps[1..][i].batch.claim;
      assert steps[i + 1] == steps[1..][i];
    }
  }

  // ---- who can still come first --------------------------------------------------------------

  // the deliveries under way that began by t
  ghost predicate BegunBy(flights: multiset<Flight>, t: int, prior: multiset<Flight>) {
    forall f :: prior[f] == if f.at <= t then flights[f] else 0
  }

  // a delivery inserts at most two events, stamped with its beginning
  lemma AcceptedEvents(t: Tables, m: Message, at: int, res: Pipeline.Result, pick: Option<nat>)
    requires m.alias in t.aliases
    ensures var u := Accept(t, m, at, res, pick);
            && |t.outbox| <= |u.outbox| <= |t.outbox| + 2
            && forall k :: |t.outbox| <= k < |u.outbox| ==> u.outbox[k].nextAt == at
  {
    AcceptWrites(t, m, at, res, pick);
  }

  lemma InsertsOf(p: Policy, s: World, step: Step)
    requires Enabled(p, s, step)
    ensures var a, b := s.t.outbox, Next(p, s, step).t.outbox;
            && |a| <= |b| <= |a| + 2 && (!step.Handle? ==> |b| == |a|)
            && (step.Handle? ==> forall k :: |a| <= k < |b| ==> b[k].nextAt == step.flight.at)
  {
    if step.Handle? {
      HandleStep(p, s, step);
      var m := s.sent[step.flight.key];
      if Stored(p, s, Next(p, s, step), m, step) {
        AcceptedEvents(s.t, m, step.flight.at, Pipeline.Run(step.reading), step.pick);
      }
    } else {
      OtherStepsQueue(p, s, step);
    }
  }

  lemma FlightsMove(p: Policy, s: World, step: Step)
    requires Enabled(p, s, step)
    ensures var s' := Next(p, s, step);
            && s.clock <= s'.clock
            && (step.Handle? ==> step.flight in s.flights && s'.flights == s.flights - multiset{step.flight})
            && (step.Deliver? ==>
                s'.flights <= s.flights + multiset{Flight(step.key, s.clock)} && s.flights <= s'.flights)
            && (!step.Handle? && !step.Deliver? ==> s'.flights == s.flights)
  {
  }

  function After(step: Step, t: int, prior: multiset<Flight>): multiset<Flight> {
    if step.Handle? && step.flight.at <= t then prior - multiset{step.flight} else prior
  }

  lemma FewEarly(before: seq<Event>, after: seq<Event>, t: int)
    requires |before| <= |after| <= |before| + 2
    ensures |EarlyIn(before, after, t)| <= 2
  {
    SubsetSize(EarlyIn(before, after, t), {|before|, |before| + 1});
  }

  lemma PriorMoves(p: Policy, s: World, step: Step, t: int, prior: multiset<Flight>)
    requires Enabled(p, s, step) && s.clock > t && BegunBy(s.flights, t, prior)
    ensures BegunBy(Next(p, s, step).flights, t, After(step, t, prior))
    ensures step.Handle? && step.flight.at <= t ==> |After(step, t, prior)| + 1 == |prior|
  {
    FlightsMove(p, s, step);
    if step.Handle? && step.flight.at <= t {
      assert prior[step.flight] > 0;
    }
  }

  lemma EarlyStep(p: Policy, s: World, step: Step, t: int, prior: multiset<Flight>)
    requires Enabled(p, s, step) && s.clock > t && BegunBy(s.flights, t, prior)
    ensures BegunBy(Next(p, s, step).flights, t, After(step, t, prior))
    ensures |EarlyIn(s.t.outbox, Next(p, s, step).t.outbox, t)| + 2 * |After(step, t, prior)| <= 2 * |prior|
  {
    InsertsOf(p, s, step);
    PriorMoves(p, s, step, t, prior);
    if step.Handle? && step.flight.at <= t {
      FewEarly(s.t.outbox, Next(p, s, step).t.outbox, t);
    } else {
      assert EarlyIn(s.t.outbox, Next(p, s, step).t.outbox, t) == {};
    }
  }

  /** Only deliveries already under way when t has passed can still insert an event due by
      t, each at most two. */
  lemma {:induction false} EarlyBounded(p: Policy, s: World, steps: seq<Step>, t: int, prior: multiset<Flight>)
    requires Valid(p, s, steps) && s.clock > t && BegunBy(s.flights, t, prior)
    ensures Early(p, s, steps, t) <= 2 * |prior|
    decreases |steps|
  {
    if steps == [] {
    } else {
      EarlyStep(p, s, steps[0], t, prior);
      FlightsMove(p, s, steps[0]);
      EarlyBounded(p, Next(p, s, steps[0]), steps[1..], t, After(steps[0], t, prior));
    }
  }

  /** Bounded wait: take any reachable moment, a time t that has passed, and a pending row
      due by t. Let n rows be due by t, and m deliveries be under way that began by t. In
      every run from there, whatever it inserts, defers or loses in crashes, the row is
      attempted or deferred within ceil((n + 2m) / 20) committed batches, counting those
      that began while no other open batch held the row. With no such delivery under way
      that is ceil(n / 20). */
  lemma BoundedWait(p: Policy, before: seq<Step>, s: World, steps: seq<Step>, t: int, k: nat, prior: multiset<Flight>)
    requires Valid(p, START, before) && s == End(p, START, before) && Valid(p, s, steps)
    requires s.clock > t && k in Ahead(s.t.outbox, t) && BegunBy(s.flights, t, prior)
    requires BATCH * Commits(p, s, steps, k, {}) >= |Ahead(s.t.outbox, t)| + 2 * |prior|
    ensures Served(steps, k)
  {
    Theorems.StartGood(p);
    Theorems.GoodRun(p, START, before);
    EarlyBounded(p, s, steps, t, prior);
    WaitEnds(p, s, steps, t, k, {});
  }
}
