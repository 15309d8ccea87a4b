/** The whole service as one transition system: workers, queue, handler, review,
    deletion, purge, outbox poller and clock, over shared tables and the object
    store. Every step may be interleaved with every other. */
module World {
  import opened Common
  import opened Schema
  import opened Pipeline
  import opened Ingest
  import Outbox
  import Privacy
  import Review

  // a delivery that passed the first key lookup; its transaction began at `at`
  datatype Flight = Flight(key: string, at: int)

  /** `sent` holds every message ever built, by its fresh object key. `uploading`
      are the keys put but not yet queued. `purging` are the mails whose object a
      sweep has deleted and whose pointer it has not yet nulled. `polls` are the open
      batches of the pollers, each holding locks on its rows. The last three sets
      are history: objects lost track of, objects removed by the purge or the bucket
      lifecycle, and users whose deletion committed after their last new alias. */
  datatype World = World(
    t: Tables, configs: seq<Config>, store: set<string>,
    sent: map<string, Message>, uploading: set<string>, queue: set<string>, dead: set<string>,
    flights: multiset<Flight>, purging: set<nat>, polls: set<Outbox.Lease>, clock: int,
    leaked: set<string>, reaped: set<string>, erased: set<string>)

  const START := World(
    Tables(map[], [], [], [], []), [], {}, map[], {}, {}, {}, multiset{}, {}, {}, 0, {}, {}, {})

  datatype Step =
    | Tick(now: int)
    | Put(message: Message)
    | Send(key: string)
    | WorkerCrash(key: string)
    | Deliver(key: string, acked: bool)
    | Handle(flight: Flight, reading: Reading, pick: Option<nat>, deleteFails: bool, fault: bool, acked: bool)
    | DeadLetter(key: string)
    | CreateAlias(alias: string, user: string, apiKey: Option<nat>)
    | Deactivate(alias: string)
    | EraseUser(user: string)
    | PurgeObject(mail: nat)
    | PurgeCommit(mails: set<nat>)
    | PurgeCrash(mails: set<nat>)
    | Expire(key: string)
    | Confirm(row: nat, category: Option<string>)
    | Dismiss(row: nat, reason: Option<string>)
    | Reprocess(row: nat, reading: Reading, pick: Option<nat>)
    | Configure(config: Config)
    | Claim(rows: seq<nat>)
    | Poll(batch: Outbox.Batch)
    | PollCrash(batch: Outbox.Batch, done: nat)

  predicate PurgeDue(p: Policy, mail: Email, now: int) {
    Privacy.DeletionDue(mail, now) || Privacy.RetentionDue(mail, now - p.retention)
  }

  predicate InFlight(s: World, key: string) {
    exists f :: f in s.flights && f.key == key
  }

  // the outbox rows open batches have locked
  function LockedRows(s: World): set<nat> {
    set lease, k | lease in s.polls && k in lease.rows :: k
  }

  // what the claiming query of a poller answers now
  predicate CanClaim(s: World, rows: seq<nat>) {
    rows != [] && Outbox.Claims(s.t.outbox, s.clock, LockedRows(s), rows)
  }

  // an open batch ends: it looked up each receiver somewhere between its claim and now
  predicate BatchPossible(s: World, b: Outbox.Batch) {
    b.Held() in s.polls && b.ended == s.clock && Outbox.BatchShape(b, s.t.outbox) && Outbox.ReadsFrom(b, s.configs)
  }

  // what the handler's critical section does with a flight
  function Received(p: Policy, s: World, step: Step): Outcome
    requires step.Handle? && step.flight.key in s.sent
  {
    Receive(p, s.t, s.store, s.sent[step.flight.key], step.flight.at, s.clock, Run(step.reading),
            step.pick, step.deleteFails)
  }

  predicate CanHandle(p: Policy, s: World, step: Step)
    requires step.Handle?
  {
    var f := step.flight;
    && f in s.flights && f.key in s.sent
    && s.clock - f.at <= p.lag
    && (s.sent[f.key].alias in s.t.aliases ==>
          PickFits(s.t, s.sent[f.key], f.at, Run(step.reading), step.pick))
    && (step.acked ==> !step.fault && Received(p, s, step).reply != ServerError)
  }

  predicate CanReprocess(s: World, i: nat, reading: Reading, pick: Option<nat>) {
    Review.Reprocessable(s.t, s.store, i, Run(reading)) ==>
      Review.PickFits(s.t.rows[i := Review.Redone(s.t.rows[i], Run(reading))], i, pick)
  }

  predicate Enabled(p: Policy, s: World, step: Step) {
    match step
    case Tick(now) => now >= s.clock
    case Put(m) => m.key !in s.sent && |m.key| <= 512
    case Send(key) => key in s.uploading
    case WorkerCrash(key) => key in s.uploading
    case Deliver(key, _) => key in s.queue && (p.exclusive ==> !InFlight(s, key))
    case Handle(_, _, _, _, _, _) => CanHandle(p, s, step)
    case DeadLetter(key) => key in s.queue
    case CreateAlias(alias, _, _) => alias !in s.t.aliases
    case Deactivate(alias) => alias in s.t.aliases
    case PurgeObject(i) => i < |s.t.emails| && PurgeDue(p, s.t.emails[i], s.clock)
    case PurgeCommit(ids) => ids <= s.purging
    case PurgeCrash(ids) => ids <= s.purging
    case Reprocess(i, reading, pick) => CanReprocess(s, i, reading, pick)
    case Claim(rows) => CanClaim(s, rows)
    case Poll(b) => BatchPossible(s, b)
    case PollCrash(b, _) => BatchPossible(s, b)
    case Expire(key) => key in s.store
    case _ => true
  }

  function Handled(p: Policy, s: World, step: Step): World
    requires step.Handle? && CanHandle(p, s, step)
  {
    var rest := s.flights - multiset{step.flight};
    if step.fault then s.(flights := rest)
    else
      var o := Received(p, s, step);
      s.(flights := rest, t := o.tables, store := o.store, leaked := s.leaked + o.leaked,
         queue := if step.acked then s.queue - {step.flight.key} else s.queue)
  }

  function WithTables(s: World, t: Tables): World {
    s.(t := t)
  }

  function Next(p: Policy, s: World, step: Step): World
    requires Enabled(p, s, step)
  {
    match step
    case Tick(now) => s.(clock := now)
    case Put(m) =>
      s.(store := s.store + {m.key}, sent := s.sent[m.key := m], uploading := s.uploading + {m.key})
    case Send(key) => s.(uploading := s.uploading - {key}, queue := s.queue + {key})
    case WorkerCrash(key) => s.(uploading := s.uploading - {key}, leaked := s.leaked + {key})
    case Deliver(key, acked) =>
      if Owned(s.t.emails, key) then (if acked then s.(queue := s.queue - {key}) else s)
      else s.(flights := s.flights + multiset{Flight(key, s.clock)})
    case Handle(_, _, _, _, _, _) => Handled(p, s, step)
    case DeadLetter(key) => s.(queue := s.queue - {key}, dead := s.dead + {key})
    case CreateAlias(alias, user, apiKey) =>
      s.(t := s.t.(aliases := s.t.aliases[alias := Alias(user, apiKey, true, 0)]), erased := s.erased - {user})
    case Deactivate(alias) =>
      WithTables(s, s.t.(aliases := s.t.aliases[alias := s.t.aliases[alias].(active := false)]))
    case EraseUser(user) =>
      s.(t := Privacy.Schedule(s.t, user, s.clock + p.grace), erased := s.erased + {user})
    case PurgeObject(i) =>
      var key := s.t.emails[i].key.value;
      s.(store := s.store - {key}, reaped := s.reaped + ({key} * s.store), purging := s.purging + {i})
    case PurgeCommit(ids) =>
      s.(t := s.t.(emails := Privacy.NullKeys(s.t.emails, ids)), purging := s.purging - ids)
    case PurgeCrash(ids) => s.(purging := s.purging - ids)
    case Expire(key) => s.(store := s.store - {key}, reaped := s.reaped + {key})
    case Confirm(i, category) => WithTables(s, Review.Confirm(s.t, i, category).0)
    case Dismiss(i, reason) => WithTables(s, Review.Dismiss(s.t, i, reason).0)
    case Reprocess(i, reading, pick) =>
      WithTables(s, Review.Reprocess(s.t, s.store, i, Run(reading), pick).0)
    case Configure(c) => s.(configs := s.configs + [c])
    case Claim(rows) => s.(polls := s.polls + {Outbox.Lease(s.clock, |s.configs|, rows)})
    case Poll(b) =>
      s.(t := s.t.(outbox := Outbox.Polled(s.t.outbox, b)), polls := s.polls - {b.Held()})
    case PollCrash(b, done) =>
      s.(t := s.t.(outbox := Outbox.Crashed(s.t.outbox, b, done)), polls := s.polls - {b.Held()})
  }

  // a run: every step possible where it is taken
  predicate Valid(p: Policy, s: World, steps: seq<Step>)
    decreases |steps|
  {
    steps == [] || (Enabled(p, s, steps[0]) && Valid(p, Next(p, s, steps[0]), steps[1..]))
  }

  function End(p: Policy, s: World, steps: seq<Step>): World
    requires Valid(p, s, steps)
    decreases |steps|
  {
    if steps == [] then s else End(p, Next(p, s, steps[0]), steps[1..])
  }
}
