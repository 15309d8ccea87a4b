/** Webhook delivery: which rows a poll claims, what one POST does to a row, and
    what holds of every row after any run of polls, crashes and inserts. */
module Outbox {
  import opened Common
  import opened Schema

  const BACKOFF: seq<nat> := [60, 300, 900, 3600]
  const MAX_ATTEMPTS: nat := 5
  const BATCH: nat := 20
  const NO_CONFIG_RETRY: nat := 60

  // ---- receivers ---------------------------------------------------------------

  predicate Matches(c: Config, apiKey: Option<nat>) {
    apiKey.None? || c.apiKey == apiKey
  }

  // config i is the latest an event may go to: its own key's, or any for an unkeyed
  // event. Equal creation times resolve to the later insert.
  predicate Latest(configs: seq<Config>, apiKey: Option<nat>, i: nat) {
    && i < |configs| && Matches(configs[i], apiKey)
    && forall j :: 0 <= j < |configs| && Matches(configs[j], apiKey) ==>
         configs[j].createdAt < configs[i].createdAt || (configs[j].createdAt == configs[i].createdAt && j <= i)
  }

  function Newest(configs: seq<Config>, apiKey: Option<nat>): (r: Option<nat>)
    ensures r.Some? ==> Latest(configs, apiKey, r.value)
    ensures r.None? ==> forall i :: 0 <= i < |configs| ==> !Matches(configs[i], apiKey)
  {
    if configs == [] then None
    else
      var n := |configs| - 1;
      var before := Newest(configs[..n], apiKey);
      if Matches(configs[n], apiKey) && (before.None? || configs[before.value].createdAt <= configs[n].createdAt)
      then Some(n) else before
  }

  /** The receiver of an event with a key is the newest config of that key, and of an event
      without one the newest of all; equal times go to the later insert. */
  lemma NewestExactly(configs: seq<Config>, apiKey: Option<nat>, i: nat)
    ensures Newest(configs, apiKey) == Some(i) <==>
              i < |configs| && (apiKey.Some? ==> configs[i].apiKey == apiKey) &&
              forall j :: 0 <= j < |configs| && j != i && (apiKey.Some? ==> configs[j].apiKey == apiKey) ==>
                configs[j].createdAt < configs[i].createdAt || (configs[j].createdAt == configs[i].createdAt && j < i)
  {
    var r := Newest(configs, apiKey);
    if i < |configs| && r.Some? && r.value != i {
      assert Latest(configs, apiKey, r.value);
    }
  }

  // one reading of the config table: its rows, and which secrets decrypt
  datatype View = View(configs: seq<Config>, readable: set<nat>)

  // get_config: None defers the event
  function GetConfig(view: View, apiKey: Option<nat>): (url: Option<string>)
    ensures url.Some? && apiKey.Some? ==>
      exists i :: 0 <= i < |view.configs| && i in view.readable &&
                  view.configs[i].apiKey == apiKey && view.configs[i].url == url.value
  {
    match Newest(view.configs, apiKey)
    case None => None
    case Some(i) => if i in view.readable then Some(view.configs[i].url) else None
  }

  /** What registering a config does to receivers: events of another key keep theirs, and
      for events it may take it becomes the receiver as the newest one. If its secret
      cannot be read those events wait; they never fall back to an older config. */
  lemma ReceiverFollowsOwnKey(view: View, more: View, apiKey: Option<nat>, c: Config)
    requires more.configs == view.configs + [c]
    requires forall i :: 0 <= i < |view.configs| ==> (i in more.readable <==> i in view.readable)
    ensures !Matches(c, apiKey) ==> GetConfig(more, apiKey) == GetConfig(view, apiKey)
    ensures Matches(c, apiKey) &&
            (forall i :: 0 <= i < |view.configs| && Matches(view.configs[i], apiKey) ==>
              view.configs[i].createdAt <= c.createdAt) ==>
              GetConfig(more, apiKey) == if |view.configs| in more.readable then Some(c.url) else None
  {
    assert more.configs[..|view.configs|] == view.configs;
  }

  // ---- one row --------------------------------------------------------------------

  datatype Answer = Answer(ok: bool, info: string)

  function Backoff(attempts: nat): nat
    requires attempts > 0
  {
    BACKOFF[Min(attempts - 1, |BACKOFF| - 1)]
  }

  // the batch a row is handled in: when it began, how many configs were registered then,
  // and when it ended. A row's own times are those of the beginning.
  datatype Turn = Turn(now: int, since: nat, ended: int)

  function PostOf(turn: Turn, url: string, view: View, a: Answer): Try {
    Try(turn.now, turn.ended, url, a.ok, turn.since, |view.configs|)
  }

  // the row after a committed batch handled it with the receiver the view gives
  function Handled(e: Event, turn: Turn, view: View, a: Answer): Event {
    var now := turn.now;
    match GetConfig(view, e.apiKey)
    case None => e.(nextAt := now + NO_CONFIG_RETRY)
    case Some(url) =>
      var e1 := e.(attempts := e.attempts + 1, target := Some(url),
                   tries := e.tries + [PostOf(turn, url, view, a)]);
      if a.ok then e1.(status := Delivered, deliveredAt := Some(now), lastError := None)
      else if e1.attempts >= MAX_ATTEMPTS then e1.(status := GivenUp, lastError := Some(Clip(a.info, 1000)))
      else e1.(nextAt := now + Backoff(e1.attempts), lastError := Some(Clip(a.info, 1000)))
  }

  // the POST happened but the batch never committed
  function PostLost(e: Event, turn: Turn, view: View, a: Answer): Event {
    match GetConfig(view, e.apiKey)
    case None => e
    case Some(url) => e.(lost := e.lost + [PostOf(turn, url, view, a)])
  }

  // ---- one batch ------------------------------------------------------------------

  predicate Due(e: Event, now: int) {
    e.status == Waiting && e.nextAt <= now
  }

  // an answer the claiming query may give: due rows no other transaction holds,
  // earliest first, at most BATCH, and none left out while there is room
  predicate Claims(events: seq<Event>, now: int, locked: set<nat>, claim: seq<nat>) {
    && Distinct(claim)
    && |claim| <= BATCH
    && (forall i :: 0 <= i < |claim| ==>
          claim[i] < |events| && claim[i] !in locked && Due(events[claim[i]], now))
    && (forall i, j :: 0 <= i < j < |claim| ==> events[claim[i]].nextAt <= events[claim[j]].nextAt)
    && (forall k :: 0 <= k < |events| && k !in locked && k !in claim && Due(events[k], now) ==>
          |claim| == BATCH && forall i :: 0 <= i < |claim| ==> events[claim[i]].nextAt <= events[k].nextAt)
  }

  // no recorded attempt is of a batch that still ran at `now`
  predicate EndedBy(e: Event, now: int) {
    forall j :: 0 <= j < |e.tries| ==> e.tries[j].ended <= now
  }

  // the part of it that survives other transactions inserting events meanwhile
  predicate DueClaim(events: seq<Event>, now: int, claim: seq<nat>) {
    Distinct(claim) && forall i :: 0 <= i < |claim| ==>
      claim[i] < |events| && Due(events[claim[i]], now) && EndedBy(events[claim[i]], now)
  }

  // what a poller holds from its claiming query to its commit: when it began, how many
  // configs were registered then, and the rows it locked
  datatype Lease = Lease(now: int, since: nat, rows: seq<nat>)

  // a batch: its lease, and for each claimed row the config table as it was when the
  // row's turn came and the receiver's answer
  datatype Batch = Batch(
    now: int, since: nat, ended: int, claim: seq<nat>, views: seq<View>, answers: seq<Answer>)
  {
    function Times(): Turn {
      Turn(now, since, ended)
    }

    function Held(): Lease {
      Lease(now, since, claim)
    }
  }

  // every config the batch looks up is read after it began
  predicate ReadsFrom(b: Batch, configs: seq<Config>) {
    forall i :: 0 <= i < |b.views| ==> b.views[i].configs <= configs && b.since <= |b.views[i].configs|
  }

  predicate BatchShape(b: Batch, events: seq<Event>) {
    |b.views| == |b.claim| == |b.answers| && Distinct(b.claim) &&
    forall i :: 0 <= i < |b.claim| ==> b.claim[i] < |events|
  }

  function Place(claim: seq<nat>, k: nat): (i: nat)
    requires k in claim
    ensures i < |claim| && claim[i] == k
    ensures forall j :: 0 <= j < i ==> claim[j] != k
  {
    if claim[0] == k then 0 else 1 + Place(claim[1..], k)
  }

  // the batch looks a key's receiver up once: at the first claimed row with that key
  function FirstOfKey(events: seq<Event>, claim: seq<nat>, apiKey: Option<nat>): (i: nat)
    requires forall i :: 0 <= i < |claim| ==> claim[i] < |events|
    ensures i <= |claim|
    ensures forall j :: 0 <= j < i ==> events[claim[j]].apiKey != apiKey
    ensures i < |claim| ==> events[claim[i]].apiKey == apiKey
  {
    if claim == [] || events[claim[0]].apiKey == apiKey then 0
    else 1 + FirstOfKey(events, claim[1..], apiKey)
  }

  function ViewFor(events: seq<Event>, b: Batch, i: nat): View
    requires BatchShape(b, events) && i < |b.claim|
  {
    var j := FirstOfKey(events, b.claim, events[b.claim[i]].apiKey);
    if j < |b.claim| then b.views[j] else b.views[i]
  }

  // process_due after its commit
  function Polled(events: seq<Event>, b: Batch): (r: seq<Event>)
    requires BatchShape(b, events)
    ensures |r| == |events|
  {
    seq(|events|, k requires 0 <= k < |events| =>
      if k in b.claim then
        Handled(events[k], b.Times(), ViewFor(events, b, Place(b.claim, k)), b.answers[Place(b.claim, k)])
      else events[k])
  }

  // process_due stopped before its commit, after the first `done` rows
  function Crashed(events: seq<Event>, b: Batch, done: nat): (r: seq<Event>)
    requires BatchShape(b, events)
    ensures |r| == |events|
  {
    seq(|events|, k requires 0 <= k < |events| =>
      if k in b.claim && Place(b.claim, k) < done then
        PostLost(events[k], b.Times(), ViewFor(events, b, Place(b.claim, k)), b.answers[Place(b.claim, k)])
      else events[k])
  }

  // ---- what holds of a row -----------------------------------------------------------

  // recorded attempts are at least the backoff apart, beginning to beginning, and the next
  // batch begins only after the one before has ended
  predicate Spaced(tries: seq<Try>) {
    && (forall j :: 0 <= j < |tries| ==> tries[j].at <= tries[j].ended)
    && (forall j :: 0 <= j < |tries| - 1 ==>
          tries[j + 1].at >= tries[j].at + Backoff(j + 1) && tries[j + 1].at >= tries[j].ended)
  }

  predicate AllFailed(tries: seq<Try>) {
    forall j :: 0 <= j < |tries| ==> !tries[j].ok
  }

  predicate Sound(e: Event) {
    && e.attempts == |e.tries| <= MAX_ATTEMPTS
    && Spaced(e.tries)
    && e.target == (if e.tries == [] then None else Some(e.tries[|e.tries| - 1].url))
    && (e.lastError.Some? ==> |e.lastError.value| <= 1000)
    && match e.status
       case Waiting =>
         && |e.tries| < MAX_ATTEMPTS && AllFailed(e.tries)
         && (e.tries != [] ==> e.nextAt >= e.tries[|e.tries| - 1].at + Backoff(|e.tries|))
         && (e.lastError.Some? <==> e.tries != []) && e.deliveredAt.None?
       case Delivered =>
         && e.tries != [] && e.tries[|e.tries| - 1].ok && AllFailed(e.tries[..|e.tries| - 1])
         && e.lastError.None? && e.deliveredAt == Some(e.tries[|e.tries| - 1].at)
       case GivenUp =>
         && |e.tries| == MAX_ATTEMPTS && AllFailed(e.tries)
         && e.lastError.Some? && e.deliveredAt.None?
  }

  // every POST for the event went to the config its key had in a table read after the
  // batch began
  predicate Routed(e: Event, configs: seq<Config>) {
    forall t :: t in e.tries + e.lost ==>
      t.since <= t.seen <= |configs| &&
      match Newest(configs[..t.seen], e.apiKey)
      case None => false
      case Some(i) => configs[i].url == t.url
  }

  // the recorded attempts once the POST at `now` is among them
  lemma TriesGrow(e: Event, now: int, t: Try)
    requires Sound(e) && Due(e, now) && EndedBy(e, now) && now == t.at <= t.ended
    ensures Spaced(e.tries + [t]) && (e.tries + [t])[..|e.tries|] == e.tries
    ensures !t.ok ==> AllFailed(e.tries + [t])
  {
    var n, more := |e.tries|, e.tries + [t];
    forall j | 0 <= j < |more| - 1
      ensures more[j + 1].at >= more[j].at + Backoff(j + 1) && more[j + 1].at >= more[j].ended
    {
      if j + 1 < n {
        assert more[j] == e.tries[j] && more[j + 1] == e.tries[j + 1];
      }
    }
  }

  lemma DeferredSound(e: Event, now: int)
    requires Sound(e) && Due(e, now)
    ensures Sound(e.(nextAt := now + NO_CONFIG_RETRY))
  {
  }

  lemma PostedSound(e: Event, turn: Turn, view: View, a: Answer)
    requires Sound(e) && Due(e, turn.now) && EndedBy(e, turn.now) && turn.now <= turn.ended
    requires GetConfig(view, e.apiKey).Some?
    ensures Sound(Handled(e, turn, view, a))
  {
    var t := PostOf(turn, GetConfig(view, e.apiKey).value, view, a);
    TriesGrow(e, turn.now, t);
    var h := Handled(e, turn, view, a);
    assert h.tries == e.tries + [t] && h.tries[|h.tries| - 1] == t;
  }

  lemma HandledSound(e: Event, turn: Turn, view: View, a: Answer)
    requires Sound(e) && Due(e, turn.now) && EndedBy(e, turn.now) && turn.now <= turn.ended
    ensures Sound(Handled(e, turn, view, a))
  {
    if GetConfig(view, e.apiKey).None? {
      DeferredSound(e, turn.now);
    } else {
      PostedSound(e, turn, view, a);
    }
  }

  lemma HandledEnded(e: Event, turn: Turn, view: View, a: Answer, now: int)
    requires EndedBy(e, now) && turn.ended <= now
    ensures EndedBy(Handled(e, turn, view, a), now) && EndedBy(PostLost(e, turn, view, a), now)
  {
  }

  lemma PolledEnded(events: seq<Event>, b: Batch, done: nat, now: int)
    requires BatchShape(b, events) && b.ended <= now
    requires forall k :: 0 <= k < |events| ==> EndedBy(events[k], now)
    ensures forall k :: 0 <= k < |events| ==> EndedBy(Polled(events, b)[k], now)
    ensures forall k :: 0 <= k < |events| ==> EndedBy(Crashed(events, b, done)[k], now)
  {
    forall k | 0 <= k < |events|
      ensures EndedBy(Polled(events, b)[k], now) && EndedBy(Crashed(events, b, done)[k], now)
    {
      if k in b.claim {
        var i := Place(b.claim, k);
        HandledEnded(events[k], b.Times(), ViewFor(events, b, i), b.answers[i], now);
      }
    }
  }

  lemma PolledKeepsLost(events: seq<Event>, b: Batch)
    requires BatchShape(b, events)
    ensures forall k :: 0 <= k < |events| ==> Polled(events, b)[k].lost == events[k].lost
  {
  }

  // a row leaves the due part of the queue: it is settled, or due at least a minute from now
  lemma HandledMovesOn(e: Event, turn: Turn, view: View, a: Answer)
    ensures Handled(e, turn, view, a).status == Waiting ==> Handled(e, turn, view, a).nextAt >= turn.now + 60
  {
  }

  /** Deferring costs nothing, a recorded attempt costs exactly one. */
  lemma DeferralIsFree(e: Event, turn: Turn, view: View, a: Answer)
    ensures var h := Handled(e, turn, view, a);
            if GetConfig(view, e.apiKey).None? then h == e.(nextAt := turn.now + NO_CONFIG_RETRY)
            else h.attempts == e.attempts + 1 && |h.tries| == |e.tries| + 1 && h.tries[..|e.tries|] == e.tries
  {
  }

  lemma RoutedGrows(e: Event, configs: seq<Config>, more: seq<Config>)
    requires Routed(e, configs) && configs <= more
    ensures Routed(e, more)
  {
    forall t | t in e.tries + e.lost
      ensures t.since <= t.seen <= |more| &&
              (match Newest(more[..t.seen], e.apiKey) case None => false case Some(i) => more[i].url == t.url)
    {
      assert more[..t.seen] == configs[..t.seen];
      var i := Newest(configs[..t.seen], e.apiKey);
      assert i.Some? ==> i.value < t.seen && more[i.value] == configs[i.value];
    }
  }

  lemma PostRouted(e: Event, turn: Turn, view: View, a: Answer, configs: seq<Config>)
    requires Routed(e, configs) && view.configs <= configs && turn.since <= |view.configs|
    ensures Routed(Handled(e, turn, view, a), configs)
    ensures Routed(PostLost(e, turn, view, a), configs)
  {
    var url := GetConfig(view, e.apiKey);
    if url.Some? {
      var t := PostOf(turn, url.value, view, a);
      var h, l := Handled(e, turn, view, a), PostLost(e, turn, view, a);
      assert configs[..t.seen] == view.configs;
      assert forall x :: x in h.tries + h.lost ==> x == t || x in e.tries + e.lost;
      assert forall x :: x in l.tries + l.lost ==> x == t || x in e.tries + e.lost;
    }
  }

  /** A row is given up no sooner than the four backoffs after the batch of its first
      recorded attempt began. Seen from the end of that batch it is its duration less, but
      never less than the last three backoffs. */
  lemma GivenUpTakesTime(e: Event)
    requires Sound(e) && e.status == GivenUp
    ensures e.tries[4].at - e.tries[0].at >= 60 + 300 + 900 + 3600
    ensures e.tries[4].at - e.tries[0].ended >= 60 + 300 + 900 + 3600 - (e.tries[0].ended - e.tries[0].at)
    ensures e.tries[4].at - e.tries[0].ended >= 300 + 900 + 3600
  {
    var t := e.tries;
    assert t[1].at >= t[0].at + Backoff(1) && t[1].at >= t[0].ended;
    assert t[2].at >= t[1].at + Backoff(2);
    assert t[3].at >= t[2].at + Backoff(3);
    assert t[4].at >= t[3].at + Backoff(4);
  }

  /** Settled rows are never touched again. */
  lemma SettledStays(events: seq<Event>, b: Batch, done: nat, k: nat)
    requires DueClaim(events, b.now, b.claim) && BatchShape(b, events)
    requires k < |events| && events[k].status != Waiting
    ensures Polled(events, b)[k] == events[k] == Crashed(events, b, done)[k]
  {
    ClaimedAreDue(events, b.now, b.claim);
  }

  lemma ClaimedAreDue(events: seq<Event>, now: int, claim: seq<nat>)
    requires DueClaim(events, now, claim)
    ensures forall k :: k in claim ==> k < |events| && Due(events[k], now) && EndedBy(events[k], now)
  {
    forall k | k in claim ensures k < |events| && Due(events[k], now) && EndedBy(events[k], now) {
      assert claim[Place(claim, k)] == k;
    }
  }

  predicate Intact(e: Event, configs: seq<Config>) {
    Sound(e) && Routed(e, configs)
  }

  // what the whole queue keeps through a batch, committed or crashed
  predicate QueueSound(events: seq<Event>, configs: seq<Config>) {
    forall k :: 0 <= k < |events| ==> Intact(events[k], configs)
  }

  lemma HandledIntact(e: Event, turn: Turn, view: View, a: Answer, configs: seq<Config>)
    requires Intact(e, configs) && Due(e, turn.now) && EndedBy(e, turn.now) && turn.now <= turn.ended
    requires view.configs <= configs && turn.since <= |view.configs|
    ensures Intact(Handled(e, turn, view, a), configs)
    ensures Intact(PostLost(e, turn, view, a), configs)
  {
    HandledSound(e, turn, view, a);
    PostRouted(e, turn, view, a, configs);
  }

  lemma PolledSound(events: seq<Event>, b: Batch, configs: seq<Config>)
    requires DueClaim(events, b.now, b.claim) && BatchShape(b, events)
    requires ReadsFrom(b, configs) && b.now <= b.ended
    requires QueueSound(events, configs)
    ensures QueueSound(Polled(events, b), configs)
  {
    ClaimedAreDue(events, b.now, b.claim);
    forall k | 0 <= k < |events| ensures Intact(Polled(events, b)[k], configs) {
      if k in b.claim {
        var i := Place(b.claim, k);
        HandledIntact(events[k], b.Times(), ViewFor(events, b, i), b.answers[i], configs);
      }
    }
  }

  lemma CrashedSound(events: seq<Event>, b: Batch, done: nat, configs: seq<Config>)
    requires DueClaim(events, b.now, b.claim) && BatchShape(b, events)
    requires ReadsFrom(b, configs) && b.now <= b.ended
    requires QueueSound(events, configs)
    ensures QueueSound(Crashed(events, b, done), configs)
  {
    ClaimedAreDue(events, b.now, b.claim);
    forall k | 0 <= k < |events| ensures Intact(Crashed(events, b, done)[k], configs) {
      if k in b.claim {
        var i := Place(b.claim, k);
        HandledIntact(events[k], b.Times(), ViewFor(events, b, i), b.answers[i], configs);
      }
    }
  }

  predicate SameWork(e: Event, f: Event) {
    f.apiKey == e.apiKey && f.alias == e.alias && f.kind == e.kind
  }

  lemma HandledIdentity(e: Event, turn: Turn, view: View, a: Answer)
    ensures SameWork(e, Handled(e, turn, view, a)) && SameWork(e, PostLost(e, turn, view, a))
  {
  }

  /** A poll rewrites only the delivery fields: the key, the alias and the announced
      work of an event are what its transaction wrote. */
  lemma PolledIdentity(events: seq<Event>, b: Batch, done: nat)
    requires BatchShape(b, events)
    ensures forall k :: 0 <= k < |events| ==> SameWork(events[k], Polled(events, b)[k])
    ensures forall k :: 0 <= k < |events| ==> SameWork(events[k], Crashed(events, b, done)[k])
  {
    forall k | 0 <= k < |events|
      ensures SameWork(events[k], Polled(events, b)[k]) && SameWork(events[k], Crashed(events, b, done)[k])
    {
      if k in b.claim {
        var i := Place(b.claim, k);
        HandledIdentity(events[k], b.Times(), ViewFor(events, b, i), b.answers[i]);
      }
    }
  }
}
