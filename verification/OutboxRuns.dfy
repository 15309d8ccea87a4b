/** The delivery queue inside the whole system: its rows stay sound, and every POST
    goes to the config of the key that created the mail's alias. */
module OutboxRuns {
  import opened Common
  import opened Schema
  import opened Pipeline
  import opened Ingest
  import opened World
  import opened Frames
  import opened Outbox

  // an event carries the key of the alias its mail came in by
  predicate Stamped(t: Tables) {
    forall k :: 0 <= k < |t.outbox| ==>
      t.outbox[k].alias in t.aliases && t.outbox[k].apiKey == t.aliases[t.outbox[k].alias].apiKey
  }

  // an open batch holds due rows, and no other batch holds any of them
  predicate LeaseSound(s: World, lease: Lease) {
    lease.rows != [] && DueClaim(s.t.outbox, lease.now, lease.rows)
    && lease.now <= s.clock && lease.since <= |s.configs|
  }

  predicate Apart(a: Lease, b: Lease) {
    forall k :: k in a.rows ==> k !in b.rows
  }

  predicate LeasesHeld(s: World) {
    && (forall lease :: lease in s.polls ==> LeaseSound(s, lease))
    && (forall a, b :: a in s.polls && b in s.polls && a != b ==> Apart(a, b))
  }

  // only batches that have ended have left attempts
  predicate AllEnded(s: World) {
    forall k :: 0 <= k < |s.t.outbox| ==> EndedBy(s.t.outbox[k], s.clock)
  }

  predicate LeasesSound(s: World) {
    LeasesHeld(s) && AllEnded(s)
  }

  predicate QueueGood(s: World) {
    QueueSound(s.t.outbox, s.configs) && Stamped(s.t) && LeasesSound(s)
  }

  lemma NewEventIntact(apiKey: Option<nat>, alias: string, kind: Kind, at: int, configs: seq<Config>)
    ensures Intact(NewEvent(apiKey, alias, kind, at), configs)
  {
  }

  lemma AppendSound(events: seq<Event>, more: seq<Event>, configs: seq<Config>)
    requires QueueSound(events, configs) && QueueSound(more, configs)
    ensures QueueSound(events + more, configs)
  {
  }

  lemma AcceptQueue(t: Tables, m: Message, at: int, res: Result, pick: Option<nat>, configs: seq<Config>)
    requires m.alias in t.aliases && QueueSound(t.outbox, configs) && Stamped(t)
    ensures var u := Accept(t, m, at, res, pick); QueueSound(u.outbox, configs) && Stamped(u)
  {
    AcceptWrites(t, m, at, res, pick);
    var u := Accept(t, m, at, res, pick);
    var work, first := WorkEvents(t, m, at, res, u.rows), FirstEvents(t, m, at);
    var key := t.aliases[m.alias].apiKey;
    forall kind ensures Intact(NewEvent(key, m.alias, kind, at), configs) {
      NewEventIntact(key, m.alias, kind, at, configs);
    }
    AppendSound(t.outbox, work, configs);
    AppendSound(t.outbox + work, first, configs);
  }

  lemma OtherStepsOutbox(p: Policy, s: World, step: Step)
    requires Enabled(p, s, step) && !step.Handle? && !step.Poll? && !step.PollCrash?
    ensures Next(p, s, step).t.outbox == s.t.outbox
  {
  }

  lemma OtherStepsConfigs(p: Policy, s: World, step: Step)
    requires Enabled(p, s, step)
    ensures s.configs <= Next(p, s, step).configs
    ensures step.Poll? || step.PollCrash? ==> Next(p, s, step).configs == s.configs
  {
  }

  lemma OtherStepsQueue(p: Policy, s: World, step: Step)
    requires Enabled(p, s, step) && !step.Handle?
    ensures var s' := Next(p, s, step);
            && s.configs <= s'.configs
            && (if step.Poll? then s'.t.outbox == Polled(s.t.outbox, step.batch) && s'.configs == s.configs
                else if step.PollCrash? then
                     s'.t.outbox == Crashed(s.t.outbox, step.batch, step.done) && s'.configs == s.configs
                else s'.t.outbox == s.t.outbox)
  {
    OtherStepsConfigs(p, s, step);
    if !step.Poll? && !step.PollCrash? {
      OtherStepsOutbox(p, s, step);
    }
  }

  lemma ClockMoves(p: Policy, s: World, step: Step)
    requires Enabled(p, s, step)
    ensures s.clock <= Next(p, s, step).clock && s.configs <= Next(p, s, step).configs
  {
  }

  // only a claim opens a lease, and only the end of its batch closes one
  lemma LeasesMove(p: Policy, s: World, step: Step)
    requires Enabled(p, s, step)
    ensures var s' := Next(p, s, step);
            && s.clock <= s'.clock && s.configs <= s'.configs
            && (step.Claim? ==> s'.polls == s.polls + {Lease(s.clock, |s.configs|, step.rows)} && s'.t == s.t)
            && (step.Poll? || step.PollCrash? ==>
                step.batch.Held() in s.polls && s'.polls == s.polls - {step.batch.Held()})
            && (!step.Claim? && !step.Poll? && !step.PollCrash? ==> s'.polls == s.polls)
  {
    ClockMoves(p, s, step);
  }

  lemma OutboxGrows(p: Policy, s: World, step: Step)
    requires Enabled(p, s, step)
    ensures var a, b := s.t.outbox, Next(p, s, step).t.outbox;
            && |a| <= |b|
            && forall k :: 0 <= k < |a| && !((step.Poll? || step.PollCrash?) && k in step.batch.claim) ==> b[k] == a[k]
  {
    if step.Handle? {
      HandleStep(p, s, step);
      var m := s.sent[step.flight.key];
      if Stored(p, s, Next(p, s, step), m, step) {
        AcceptWrites(s.t, m, step.flight.at, Run(step.reading), step.pick);
      }
    } else {
      OtherStepsQueue(p, s, step);
    }
  }

  lemma LeaseKept(s: World, s': World, lease: Lease)
    requires LeaseSound(s, lease) && s.clock <= s'.clock && s.configs <= s'.configs
    requires forall k :: k in lease.rows ==> k < |s.t.outbox| <= |s'.t.outbox| && s'.t.outbox[k] == s.t.outbox[k]
    ensures LeaseSound(s', lease)
  {
    forall i | 0 <= i < |lease.rows|
      ensures lease.rows[i] < |s'.t.outbox| && Due(s'.t.outbox[lease.rows[i]], lease.now) &&
              EndedBy(s'.t.outbox[lease.rows[i]], lease.now)
    {
      assert lease.rows[i] in lease.rows;
    }
  }

  lemma LeasedRows(s: World, lease: Lease)
    requires LeaseSound(s, lease)
    ensures forall k :: k in lease.rows ==> k < |s.t.outbox| && Due(s.t.outbox[k], lease.now)
  {
    ClaimedAreDue(s.t.outbox, lease.now, lease.rows);
  }

  lemma NewLease(s: World, rows: seq<nat>)
    requires CanClaim(s, rows) && LeasesSound(s)
    ensures LeaseSound(s, Lease(s.clock, |s.configs|, rows))
    ensures forall a :: a in s.polls ==>
              Apart(a, Lease(s.clock, |s.configs|, rows)) && Apart(Lease(s.clock, |s.configs|, rows), a)
  {
    forall a, k | a in s.polls && k in rows ensures k !in a.rows {
      assert rows[Place(rows, k)] == k && k !in LockedRows(s);
    }
  }

  // leases stay sound through anything that leaves their rows alone
  lemma LeasesKept(s: World, s': World)
    requires LeasesHeld(s) && s'.polls <= s.polls && s.clock <= s'.clock && s.configs <= s'.configs
    requires |s.t.outbox| <= |s'.t.outbox|
    requires forall lease, k :: lease in s'.polls && k in lease.rows && k < |s.t.outbox| ==>
              s'.t.outbox[k] == s.t.outbox[k]
    ensures LeasesHeld(s')
  {
    forall lease | lease in s'.polls ensures LeaseSound(s', lease) {
      LeasedRows(s, lease);
      LeaseKept(s, s', lease);
    }
  }

  lemma LeasesClaimed(s: World, s': World, rows: seq<nat>)
    requires CanClaim(s, rows) && LeasesSound(s) && s'.polls == s.polls + {Lease(s.clock, |s.configs|, rows)}
    requires s'.t == s.t && s.clock <= s'.clock && s.configs <= s'.configs
    ensures LeasesHeld(s')
  {
    NewLease(s, rows);
  }

  // a batch that ends touches its own rows only
  lemma LeaseEnded(s: World, s': World, held: Lease)
    requires LeasesHeld(s) && held in s.polls && s'.polls == s.polls - {held}
             && s.clock <= s'.clock && s.configs <= s'.configs
    requires |s.t.outbox| <= |s'.t.outbox|
    requires forall k :: 0 <= k < |s.t.outbox| && k !in held.rows ==> s'.t.outbox[k] == s.t.outbox[k]
    ensures LeasesHeld(s')
  {
    forall lease, k | lease in s'.polls && k in lease.rows && k < |s.t.outbox|
      ensures s'.t.outbox[k] == s.t.outbox[k]
    {
      assert Apart(lease, held);
    }
    LeasesKept(s, s');
  }

  lemma NewEventsBare(p: Policy, s: World, step: Step)
    requires Enabled(p, s, step)
    ensures var a, b := s.t.outbox, Next(p, s, step).t.outbox;
            forall k :: |a| <= k < |b| ==> b[k].status == Waiting && b[k].tries == [] && b[k].lost == []
  {
    if step.Handle? {
      HandleStep(p, s, step);
      var m := s.sent[step.flight.key];
      if Stored(p, s, Next(p, s, step), m, step) {
        AcceptWrites(s.t, m, step.flight.at, Run(step.reading), step.pick);
      }
    } else {
      OtherStepsQueue(p, s, step);
    }
  }

  lemma EndedGrows(events: seq<Event>, now: int, more: seq<Event>, later: int)
    requires forall k :: 0 <= k < |events| ==> EndedBy(events[k], now)
    requires now <= later && |events| <= |more|
    requires forall k :: 0 <= k < |events| ==> more[k] == events[k]
    requires forall k :: |events| <= k < |more| ==> more[k].tries == [] && more[k].lost == []
    ensures forall k :: 0 <= k < |more| ==> EndedBy(more[k], later)
  {
  }

  lemma EndedStep(p: Policy, s: World, step: Step)
    requires Enabled(p, s, step) && AllEnded(s)
    ensures AllEnded(Next(p, s, step))
  {
    ClockMoves(p, s, step);
    if step.Poll? || step.PollCrash? {
      OtherStepsQueue(p, s, step);
      PolledEnded(s.t.outbox, step.batch, if step.PollCrash? then step.done else 0, s.clock);
    } else {
      OutboxGrows(p, s, step);
      NewEventsBare(p, s, step);
      EndedGrows(s.t.outbox, s.clock, Next(p, s, step).t.outbox, Next(p, s, step).clock);
    }
  }

  lemma LeasesStep(p: Policy, s: World, step: Step)
    requires Enabled(p, s, step) && LeasesSound(s)
    ensures LeasesSound(Next(p, s, step))
  {
    var s' := Next(p, s, step);
    EndedStep(p, s, step);
    LeasesMove(p, s, step);
    OutboxGrows(p, s, step);
    if step.Claim? {
      LeasesClaimed(s, s', step.rows);
    } else if step.Poll? || step.PollCrash? {
      LeaseEnded(s, s', step.batch.Held());
    } else {
      LeasesKept(s, s');
    }
  }

  lemma OthersQueueSound(p: Policy, s: World, step: Step)
    requires Enabled(p, s, step) && !step.Handle? && QueueSound(s.t.outbox, s.configs) && LeasesSound(s)
    ensures QueueSound(Next(p, s, step).t.outbox, Next(p, s, step).configs)
  {
    OtherStepsQueue(p, s, step);
    if step.Poll? || step.PollCrash? {
      assert LeaseSound(s, step.batch.Held());
    }
    if step.Poll? {
      PolledSound(s.t.outbox, step.batch, s.configs);
    } else if step.PollCrash? {
      CrashedSound(s.t.outbox, step.batch, step.done, s.configs);
    } else {
      ConfigsGrow(s.t.outbox, s.configs, Next(p, s, step).configs);
    }
  }

  lemma ConfigsGrow(events: seq<Event>, configs: seq<Config>, more: seq<Config>)
    requires QueueSound(events, configs) && configs <= more
    ensures QueueSound(events, more)
  {
    forall k | 0 <= k < |events| ensures Intact(events[k], more) {
      RoutedGrows(events[k], configs, more);
    }
  }

  lemma KeptStamped(a: Tables, b: Tables, nulled: set<nat>)
    requires TablesKept(a, b, nulled) && Stamped(a)
    ensures Stamped(b)
  {
  }

  lemma QueueGoodStep(p: Policy, s: World, step: Step)
    requires Enabled(p, s, step) && RowsHaveMails(s.t) && QueueGood(s)
    ensures QueueGood(Next(p, s, step))
  {
    LeasesStep(p, s, step);
    if step.Handle? {
      HandleStep(p, s, step);
      var m := s.sent[step.flight.key];
      if Stored(p, s, Next(p, s, step), m, step) {
        AcceptQueue(s.t, m, step.flight.at, Run(step.reading), step.pick, s.configs);
      }
    } else {
      OthersQueueSound(p, s, step);
      OtherSteps(p, s, step);
      KeptStamped(s.t, Next(p, s, step).t, NulledBy(step));
    }
  }
}
