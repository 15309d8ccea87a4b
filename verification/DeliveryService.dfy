/** One iteration of the outbox poller, statement by statement. */
module DeliveryService {
  import opened Common
  import opened Schema
  import opened Session
  import opened Outbox

  // what the batch remembers per key: where to deliver, and how much of the config
  // table the lookup saw
  datatype Receiver = Receiver(url: Option<string>, seen: nat)

  function Lookup(view: View, apiKey: Option<nat>): Receiver {
    Receiver(GetConfig(view, apiKey), |view.configs|)
  }

  // the events once the first i claimed rows are handled
  predicate HalfPolled(events: seq<Event>, b: Batch, i: nat, now: seq<Event>)
    requires BatchShape(b, events)
  {
    && |now| == |events|
    && forall k :: 0 <= k < |events| ==>
         now[k] == if k in b.claim && Place(b.claim, k) < i
                   then Outbox.Handled(events[k], b.Times(), ViewFor(events, b, Place(b.claim, k)),
                                          b.answers[Place(b.claim, k)])
                   else events[k]
  }

  lemma OwnPlace(claim: seq<nat>, i: nat)
    requires Distinct(claim) && i < |claim|
    ensures Place(claim, claim[i]) == i
  {
  }

  lemma HalfStep(events: seq<Event>, b: Batch, i: nat, now: seq<Event>)
    requires BatchShape(b, events) && i < |b.claim| && HalfPolled(events, b, i, now)
    ensures now[b.claim[i]] == events[b.claim[i]]
    ensures HalfPolled(events, b, i + 1,
                       now[b.claim[i] := Outbox.Handled(events[b.claim[i]], b.Times(), ViewFor(events, b, i),
                                                      b.answers[i])])
  {
    OwnPlace(b.claim, i);
    forall k | 0 <= k < |events| && k != b.claim[i] && k in b.claim ensures Place(b.claim, k) != i {
    }
  }

  lemma AllPolled(events: seq<Event>, b: Batch, now: seq<Event>)
    requires BatchShape(b, events) && HalfPolled(events, b, |b.claim|, now)
    ensures now == Polled(events, b)
  {
  }

  // the cache holds each key met so far, looked up at the first row that has it
  ghost predicate Remembers(events: seq<Event>, b: Batch, i: nat, cache: map<Option<nat>, Receiver>)
    requires BatchShape(b, events) && i <= |b.claim|
  {
    forall key :: key in cache || FirstOfKey(events, b.claim, key) < i ==>
      var first := FirstOfKey(events, b.claim, key);
      first < i && key in cache && cache[key] == Lookup(b.views[first], key)
  }

  lemma CacheStep(events: seq<Event>, b: Batch, i: nat, cache: map<Option<nat>, Receiver>)
    requires BatchShape(b, events) && i < |b.claim| && Remembers(events, b, i, cache)
    ensures var key := events[b.claim[i]].apiKey;
            var after := if key in cache then cache else cache[key := Lookup(b.views[i], key)];
            Remembers(events, b, i + 1, after) && after[key] == Lookup(ViewFor(events, b, i), key)
  {
    var key := events[b.claim[i]].apiKey;
    assert FirstOfKey(events, b.claim, key) <= i;
    forall other | FirstOfKey(events, b.claim, other) == i ensures other == key {
    }
  }

  // one POST, or the deferral when the key has no readable receiver
  method DeliverRow(db: Database, k: nat, turn: Turn, receiver: Receiver, a: Answer, ghost view: View)
    requires k < |db.outbox| && receiver == Lookup(view, db.outbox[k].apiKey)
    modifies db`outbox
    ensures db.outbox == old(db.outbox)[k := Outbox.Handled(old(db.outbox)[k], turn, view, a)]
  {
    var row := db.outbox[k];
    if receiver.url.None? {
      row := row.(nextAt := turn.now + NO_CONFIG_RETRY);
    } else {
      row := row.(tries := row.tries + [Try(turn.now, turn.ended, receiver.url.value, a.ok, turn.since,
                                 receiver.seen)]);
      row := row.(attempts := row.attempts + 1);
      row := row.(target := receiver.url);
      if a.ok {
        row := row.(status := Delivered, deliveredAt := Some(turn.now), lastError := None);
      } else {
        row := row.(lastError := Some(Clip(a.info, 1000)));
        if row.attempts >= MAX_ATTEMPTS {
          row := row.(status := GivenUp);
        } else {
          row := row.(nextAt := turn.now + Backoff(row.attempts));
        }
      }
    }
    db.outbox := db.outbox[k := row];
  }

  method ProcessRows(db: Database, b: Batch)
    requires BatchShape(b, db.outbox)
    modifies db`outbox
    ensures HalfPolled(old(db.outbox), b, |b.claim|, db.outbox)
  {
    ghost var events := db.outbox;
    var cache: map<Option<nat>, Receiver> := map[];
    for i := 0 to |b.claim|
      invariant HalfPolled(events, b, i, db.outbox)
      invariant Remembers(events, b, i, cache)
    {
      HalfStep(events, b, i, db.outbox);
      CacheStep(events, b, i, cache);
      var key := db.outbox[b.claim[i]].apiKey;
      if key !in cache {
        cache := cache[key := Lookup(b.views[i], key)];
      }
      DeliverRow(db, b.claim[i], b.Times(), cache[key], b.answers[i], ViewFor(events, b, i));
    }
  }

  /** A committed poll: every claimed row is handled once, with the receiver its key had
      at the key's first row in the batch, nothing else moves, and one commit publishes
      it all. */
  method ProcessDue(db: Database, b: Batch, ghost locked: set<nat>) returns (processed: nat)
    requires db.View() == db.committed
    requires BatchShape(b, db.outbox) && Claims(db.outbox, b.now, locked, b.claim)
    modifies db`outbox, db`committed
    ensures processed == |b.claim| <= BATCH
    ensures db.outbox == Polled(old(db.outbox), b)
    ensures db.View() == db.committed
  {
    if b.claim == [] {
      return 0;
    }
    ghost var events := db.outbox;
    ProcessRows(db, b);
    AllPolled(events, b, db.outbox);
    db.Commit();
    return |b.claim|;
  }
}
