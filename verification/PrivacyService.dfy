/** Scheduling a deletion, and the sweeps that drain what is due. */
module PrivacyService {
  import opened Common
  import opened Schema
  import opened Session
  import Privacy

  const PURGE_BATCH: nat := 100
  const MAX_DRAIN_BATCHES: nat := 50

  // the mails a deletion of the user stamps
  function ToStamp(t: Tables, user: string): set<nat> {
    set i: nat | i < |t.emails| && Privacy.BelongsTo(t, t.emails[i], user) && t.emails[i].key.Some?
      && t.emails[i].deadline.None?
  }

  // the user's aliases that are switched on
  function ActiveOf(aliases: map<string, Alias>, user: string): set<string> {
    set a | a in aliases && aliases[a].user == user && aliases[a].active
  }

  method ScheduleUserDeletion(db: Database, user: string, deadline: int) returns (deactivated: nat, scheduled: nat)
    modifies db
    ensures db.committed == db.View() == Privacy.Schedule(old(db.View()), user, deadline)
    ensures deactivated ==
            |set a | a in old(db.aliases) && a in db.aliases && old(db.aliases)[a].active && !db.aliases[a].active|
    ensures |db.emails| == |old(db.emails)|
    ensures scheduled == |set i: nat | i < |db.emails| && db.emails[i].deadline != old(db.emails)[i].deadline|
  {
    ghost var t := db.View();
    deactivated := Deactivate(db, user);
    scheduled := Stamp(db, user, deadline, t);
    db.Commit();
    CountsAreChanges(t, user, deadline);
  }

  // both counts are those of what changed
  lemma CountsAreChanges(t: Tables, user: string, deadline: int)
    ensures var s := Privacy.Schedule(t, user, deadline);
            && ActiveOf(t.aliases, user) ==
                 (set a | a in t.aliases && a in s.aliases && t.aliases[a].active && !s.aliases[a].active)
            && ToStamp(t, user) == (set i: nat | i < |s.emails| && s.emails[i].deadline != t.emails[i].deadline)
  {
  }

  function Off(aliases: map<string, Alias>, names: set<string>): map<string, Alias> {
    map a | a in aliases :: if a in names then aliases[a].(active := false) else aliases[a]
  }

  function AliasesOf(aliases: map<string, Alias>, user: string): set<string> {
    set a | a in aliases && aliases[a].user == user
  }

  // the state of the loop with the names in `todo` still to come
  predicate HalfOff(was: map<string, Alias>, user: string, todo: set<string>, now: map<string, Alias>, count: nat) {
    && todo <= AliasesOf(was, user)
    && now == Off(was, AliasesOf(was, user) - todo)
    && count == |ActiveOf(was, user) - todo|
  }

  lemma OffOne(was: map<string, Alias>, names: set<string>, a: string)
    requires a in was && a !in names
    ensures Off(was, names)[a] == was[a]
    ensures Off(was, names + {a})
            == if was[a].active then Off(was, names)[a := was[a].(active := false)] else Off(was, names)
  {
  }

  lemma OffStep(was: map<string, Alias>, user: string, todo: set<string>,
                now: map<string, Alias>, count: nat, a: string)
    requires HalfOff(was, user, todo, now, count) && a in todo
    ensures a in now && now[a] == was[a]
    ensures HalfOff(was, user, todo - {a}, if was[a].active then now[a := was[a].(active := false)] else now,
                    if was[a].active then count + 1 else count)
  {
    var all, on := AliasesOf(was, user), ActiveOf(was, user);
    OffOne(was, all - todo, a);
    assert all - (todo - {a}) == all - todo + {a};
    if was[a].active {
      assert on - (todo - {a}) == on - todo + {a};
    } else {
      assert on - (todo - {a}) == on - todo;
    }
  }

  lemma AllOff(was: map<string, Alias>, user: string, now: map<string, Alias>, count: nat)
    requires HalfOff(was, user, {}, now, count)
    ensures count == |ActiveOf(was, user)|
    ensures now == map a | a in was :: if was[a].user == user then was[a].(active := false) else was[a]
  {
    assert ActiveOf(was, user) - {} == ActiveOf(was, user);
  }

  lemma NoneOff(was: map<string, Alias>, user: string)
    ensures HalfOff(was, user, AliasesOf(was, user), was, 0)
  {
    assert ActiveOf(was, user) - AliasesOf(was, user) == {};
  }

  method Deactivate(db: Database, user: string) returns (deactivated: nat)
    modifies db`aliases
    ensures db.aliases == Privacy.Schedule(old(db.View()), user, 0).aliases
    ensures deactivated == |ActiveOf(old(db.aliases), user)|
  {
    ghost var was := db.aliases;
    var todo := AliasesOf(db.aliases, user);
    deactivated := 0;
    NoneOff(was, user);
    while todo != {}
      invariant HalfOff(was, user, todo, db.aliases, deactivated)
      decreases |todo|
    {
      var a :| a in todo;
      OffStep(was, user, todo, db.aliases, deactivated, a);
      if db.aliases[a].active {
        db.aliases := db.aliases[a := db.aliases[a].(active := false)];
        deactivated := deactivated + 1;
      }
      todo := todo - {a};
    }
    AllOff(was, user, db.aliases, deactivated);
  }

  // the mails once the first i rows of the UPDATE are done
  predicate HalfStamped(t: Tables, user: string, deadline: int, i: nat, emails: seq<Email>, count: nat) {
    && |emails| == |t.emails|
    && (forall k :: 0 <= k < |emails| ==>
          emails[k] == if k in ToStamp(t, user) && k < i then t.emails[k].(deadline := Some(deadline)) else t.emails[k])
    && count == |set k | k in ToStamp(t, user) && k < i|
  }

  lemma CountNext(ids: set<nat>, i: nat)
    ensures |set k | k in ids && k < i + 1| == |set k | k in ids && k < i| + if i in ids then 1 else 0
  {
    var before, after := set k | k in ids && k < i, set k | k in ids && k < i + 1;
    assert after == before + if i in ids then {i} else {};
  }

  lemma StampNext(t: Tables, user: string, deadline: int, i: nat, emails: seq<Email>, count: nat)
    requires HalfStamped(t, user, deadline, i, emails, count) && i < |t.emails|
    ensures emails[i] == t.emails[i]
    ensures if i in ToStamp(t, user)
            then HalfStamped(t, user, deadline, i + 1, emails[i := emails[i].(deadline := Some(deadline))], count + 1)
            else HalfStamped(t, user, deadline, i + 1, emails, count)
  {
    CountNext(ToStamp(t, user), i);
  }

  lemma AllStamped(t: Tables, user: string, deadline: int, emails: seq<Email>, count: nat)
    requires HalfStamped(t, user, deadline, |t.emails|, emails, count)
    ensures emails == Privacy.Schedule(t, user, deadline).emails && count == |ToStamp(t, user)|
  {
    assert (set k | k in ToStamp(t, user) && k < |t.emails|) == ToStamp(t, user);
  }

  // one UPDATE: every mail of the user's aliases that has an object and no deadline
  method Stamp(db: Database, user: string, deadline: int, ghost t: Tables) returns (scheduled: nat)
    requires t == db.View().(aliases := t.aliases)
    requires db.aliases == Privacy.Schedule(t, user, deadline).aliases
    modifies db`emails
    ensures db.emails == Privacy.Schedule(t, user, deadline).emails
    ensures scheduled == |ToStamp(t, user)|
  {
    scheduled := 0;
    assert (set k | k in ToStamp(t, user) && k < 0) == {};
    for i := 0 to |db.emails|
      invariant HalfStamped(t, user, deadline, i, db.emails, scheduled)
    {
      StampNext(t, user, deadline, i, db.emails, scheduled);
      var mail := db.emails[i];
      if mail.alias in db.aliases && db.aliases[mail.alias].user == user && mail.key.Some? && mail.deadline.None? {
        db.emails := db.emails[i := mail.(deadline := Some(deadline))];
        scheduled := scheduled + 1;
      }
    }
    AllStamped(t, user, deadline, db.emails, scheduled);
  }

  // ---- purging ------------------------------------------------------------------------

  function KeysOf(emails: seq<Email>, ids: set<nat>): set<string> {
    set i | i in ids && i < |emails| && emails[i].key.Some? :: emails[i].key.value
  }

  // the mails among the first k whose deletion goes through
  function Deletable(rows: seq<nat>, k: nat, broken: set<nat>): set<nat>
    requires k <= |rows|
  {
    set j | 0 <= j < k && rows[j] !in broken :: rows[j]
  }

  lemma DeletableStep(rows: seq<nat>, k: nat, broken: set<nat>)
    requires k < |rows| && Distinct(rows)
    ensures rows[k] !in Deletable(rows, k, broken)
    ensures Deletable(rows, k + 1, broken) == Deletable(rows, k, broken) + if rows[k] in broken then {} else {rows[k]}
  {
  }

  // the state of the batch after its first k rows
  predicate HalfPurged(was: seq<Email>, objects: set<string>, done: set<nat>, emails: seq<Email>, left: set<string>) {
    emails == Privacy.NullKeys(was, done) && left == objects - KeysOf(was, done)
  }

  lemma PurgeStep(was: seq<Email>, objects: set<string>, done: set<nat>, emails: seq<Email>, left: set<string>, i: nat)
    requires HalfPurged(was, objects, done, emails, left) && i < |was| && i !in done && was[i].key.Some?
    ensures |emails| == |was| && emails[i] == was[i]
    ensures HalfPurged(was, objects, done + {i}, emails[i := was[i].(key := None)], left - {was[i].key.value})
  {
    assert KeysOf(was, done + {i}) == KeysOf(was, done) + {was[i].key.value};
  }

  lemma NothingPurged(was: seq<Email>, objects: set<string>)
    ensures HalfPurged(was, objects, {}, was, objects)
  {
    assert KeysOf(was, {}) == {};
  }

  lemma NothingHappened(was: seq<Email>, objects: set<string>, emails: seq<Email>, left: set<string>)
    requires HalfPurged(was, objects, {}, emails, left)
    ensures emails == was && left == objects
  {
    assert KeysOf(was, {}) == {};
  }

  predicate HaveObjects(emails: seq<Email>, rows: seq<nat>) {
    forall k :: 0 <= k < |rows| ==> rows[k] < |emails| && emails[rows[k]].key.Some?
  }

  // the object first, then the pointer; an object that is already gone is no failure
  method PurgeOne(db: Database, r2: Bucket, i: nat, ghost was: seq<Email>, ghost objects: set<string>,
                  ghost done: set<nat>)
    requires HalfPurged(was, objects, done, db.emails, r2.objects) && i < |was| && i !in done && was[i].key.Some?
    modifies db`emails, r2
    ensures HalfPurged(was, objects, done + {i}, db.emails, r2.objects)
  {
    PurgeStep(was, objects, done, db.emails, r2.objects, i);
    var mail := db.emails[i];
    r2.Delete(mail.key.value);
    db.emails := db.emails[i := mail.(key := None)];
  }

  // `broken` are the mails whose object deletion fails in this batch. The pointer of a
  // mail is nulled exactly when its object was deleted, and the result counts those.
  method PurgeBatch(db: Database, r2: Bucket, rows: seq<nat>, broken: set<nat>) returns (purged: nat)
    requires HaveObjects(db.emails, rows) && Distinct(rows)
    modifies db`emails, db`committed, r2
    ensures HalfPurged(old(db.emails), old(r2.objects), Deletable(rows, |rows|, broken), db.emails, r2.objects)
    ensures purged == |Deletable(rows, |rows|, broken)|
    ensures db.committed == db.View()
  {
    ghost var was, objects := db.emails, r2.objects;
    ghost var done: set<nat> := {};
    purged := 0;
    NothingPurged(was, objects);
    for k := 0 to |rows|
      invariant done == Deletable(rows, k, broken) && purged == |done|
      invariant HalfPurged(was, objects, done, db.emails, r2.objects)
    {
      DeletableStep(rows, k, broken);
      if rows[k] !in broken {
        PurgeOne(db, r2, rows[k], was, objects, done);
        done := done + {rows[k]};
        purged := purged + 1;
      }
    }
    db.Commit();
  }

  // ---- draining -------------------------------------------------------------------------

  // the two queries that are drained
  datatype Query = PendingDeletion(now: int) | Retention(cutoff: int) {
    predicate Matches(mail: Email) {
      match this
      case PendingDeletion(now) => Privacy.DeletionDue(mail, now)
      case Retention(cutoff) => Privacy.RetentionDue(mail, cutoff)
    }
  }

  function Matching(emails: seq<Email>, query: Query): set<nat> {
    set i: nat | i < |emails| && query.Matches(emails[i])
  }

  // the first `limit` matches when the mails come in the given order
  function Pick(order: seq<nat>, from: set<nat>, limit: nat): (rows: seq<nat>)
    ensures forall i :: i in rows ==> i in order && i in from
  {
    if order == [] || limit == 0 then []
    else if order[0] in from then [order[0]] + Pick(order[1..], from, limit - 1)
    else Pick(order[1..], from, limit)
  }

  function Listed(order: seq<nat>, from: set<nat>): set<nat> {
    set i | i in order && i in from
  }

  lemma FirstApart(order: seq<nat>, from: set<nat>)
    requires Distinct(order) && order != []
    ensures Distinct(order[1..]) && order[0] !in order[1..]
    ensures Listed(order, from) == Listed(order[1..], from) + if order[0] in from then {order[0]} else {}
  {
  }

  lemma DistinctFrom(first: nat, rest: seq<nat>)
    requires Distinct(rest) && first !in rest
    ensures Distinct([first] + rest)
  {
  }

  lemma {:induction false} PickSelects(order: seq<nat>, from: set<nat>, limit: nat)
    requires Distinct(order)
    ensures Distinct(Pick(order, from, limit)) && |Pick(order, from, limit)| == Min(|Listed(order, from)|, limit)
  {
    if order == [] || limit == 0 {
    } else {
      FirstApart(order, from);
      if order[0] in from {
        PickSelects(order[1..], from, limit - 1);
        DistinctFrom(order[0], Pick(order[1..], from, limit - 1));
      } else {
        PickSelects(order[1..], from, limit);
      }
    }
  }

  // an answer of the randomly ordered query with its limit
  predicate Selection(rows: seq<nat>, from: set<nat>) {
    Distinct(rows) && (forall k :: 0 <= k < |rows| ==> rows[k] in from) && |rows| == Min(|from|, PURGE_BATCH)
  }

  // what happens to one sweep from outside: the random order each of its rounds gets,
  // and the mails whose object deletion fails in it
  datatype Sweep = Sweep(orders: seq<seq<nat>>, broken: seq<set<nat>>)

  predicate IsOrder(order: seq<nat>, n: nat) {
    Distinct(order) && forall i: nat :: i < n ==> i in order
  }

  // every round has an order, and the order has all n mails
  predicate Orders(w: Sweep, n: nat) {
    && |w.orders| == |w.broken| == MAX_DRAIN_BATCHES
    && forall r :: 0 <= r < MAX_DRAIN_BATCHES ==> IsOrder(w.orders[r], n)
  }

  lemma OrderedSelection(order: seq<nat>, from: set<nat>, n: nat)
    requires IsOrder(order, n) && (forall i :: i in from ==> i < n)
    ensures Selection(Pick(order, from, PURGE_BATCH), from)
  {
    PickSelects(order, from, PURGE_BATCH);
    assert Listed(order, from) == from;
  }

  // in no round do more than f of the matched mails fail
  predicate AtMostFail(w: Sweep, from: set<nat>, f: nat) {
    forall r :: 0 <= r < |w.broken| ==> |w.broken[r] * from| <= f
  }

  lemma {:induction false} MemberCount(rows: seq<nat>, k: nat)
    requires Distinct(rows) && k <= |rows|
    ensures |Deletable(rows, k, {})| == k
  {
    if k == 0 {
      assert Deletable(rows, 0, {}) == {};
    } else {
      DeletableStep(rows, k - 1, {});
      MemberCount(rows, k - 1);
    }
  }

  // how far one batch gets: it takes what is left if that is little, and loses at most f
  lemma BatchProgress(rows: seq<nat>, from: set<nat>, due: set<nat>, broken: set<nat>, f: nat)
    requires Selection(rows, from) && from <= due && |broken * due| <= f
    ensures var done := Deletable(rows, |rows|, broken);
            && done <= from && |from - done| == |from| - |done|
            && |done| >= |rows| - f
            && (|rows| == |from| ==> from - done <= broken && |from - done| <= f)
  {
    var done, all := Deletable(rows, |rows|, broken), Deletable(rows, |rows|, {});
    MemberCount(rows, |rows|);
    assert all <= from;
    assert all - done <= broken * due;
    SubsetSize(all - done, broken * due);
    assert |all| == |all - done| + |done|;
    assert |from| == |from - done| + |done|;
    if |rows| == |from| {
      SameSize(all, from);
    }
  }

  lemma SameSize(a: set<nat>, b: set<nat>)
    requires a <= b && |a| == |b|
    ensures a == b
  {
    if x :| x in b && x !in a {
      SubsetSize(a, b - {x});
    }
  }

  lemma MatchingAfter(emails: seq<Email>, query: Query, done: set<nat>)
    ensures Matching(Privacy.NullKeys(emails, done), query) == Matching(emails, query) - done
  {
  }

  // what that many rounds purge at least when f of a batch fail
  function AtLeast(rounds: nat, f: nat): int {
    if rounds == 0 then 0 else AtLeast(rounds - 1, f) + PURGE_BATCH - f
  }

  lemma {:induction false} AtLeastProduct(rounds: nat, f: nat)
    ensures AtLeast(rounds, f) == rounds * (PURGE_BATCH - f)
  {
    if rounds == 0 {
    } else {
      AtLeastProduct(rounds - 1, f);
      assert rounds * (PURGE_BATCH - f) == (rounds - 1) * (PURGE_BATCH - f) + PURGE_BATCH - f;
    }
  }

  // the lower bound on what a sweep purges of n mails
  predicate Enough(total: nat, n: nat, f: nat) {
    total >= Min(n - f, 50 * (100 - f))
  }

  lemma EnoughPurged(total: nat, due: nat, left: nat, rounds: nat, f: nat)
    requires total + left == due && rounds <= MAX_DRAIN_BATCHES
    requires total >= AtLeast(rounds, f) || left <= f
    requires rounds < MAX_DRAIN_BATCHES && f < PURGE_BATCH ==> left <= f
    ensures Enough(total, due, f)
  {
    if f < PURGE_BATCH && left > f {
      AtLeastProduct(rounds, f);
    }
  }

  // a sweep that found `was` and `objects`, with the mails `due` matching, and has purged
  // `gone` in `rounds` rounds, each of which purged something
  datatype Progress = Progress(was: seq<Email>, objects: set<string>, due: set<nat>, f: nat,
                               gone: set<nat>, total: nat, rounds: nat)
  {
    function Advance(done: set<nat>): Progress {
      this.(gone := gone + done, total := total + |done|, rounds := rounds + 1)
    }

    predicate Counted() {
      && gone <= due && total == |gone| && |due - gone| == |due| - |gone|
      && (total >= AtLeast(rounds, f) || |due - gone| <= f)
    }

    predicate Reached(emails: seq<Email>, left: set<string>) {
      Counted() && HalfPurged(was, objects, gone, emails, left)
    }

    // all that is left to purge has just failed, unless a whole batch can fail
    predicate OnlyFailing(broken: set<nat>) {
      f < PURGE_BATCH ==> due - gone <= broken && |due - gone| <= f
    }
  }

  lemma TakenApart(due: set<nat>, gone: set<nat>, done: set<nat>)
    requires gone <= due && done <= due - gone
    ensures gone !! done && gone + done <= due && |gone + done| == |gone| + |done|
    ensures due - (gone + done) == due - gone - done
  {
  }

  lemma RoundCounts(d: Progress, rows: seq<nat>, broken: set<nat>)
    requires d.Counted() && Selection(rows, d.due - d.gone) && |broken * d.due| <= d.f
    ensures var done := Deletable(rows, |rows|, broken); d.gone !! done && d.Advance(done).Counted()
  {
    BatchProgress(rows, d.due - d.gone, d.due, broken, d.f);
    TakenApart(d.due, d.gone, Deletable(rows, |rows|, broken));
  }

  lemma RoundStuck(d: Progress, rows: seq<nat>, broken: set<nat>)
    requires d.Counted() && Selection(rows, d.due - d.gone) && |broken * d.due| <= d.f
    requires Deletable(rows, |rows|, broken) == {}
    ensures d.OnlyFailing(broken)
  {
    var from := d.due - d.gone;
    BatchProgress(rows, from, d.due, broken, d.f);
    assert from - {} == from;
  }

  lemma PurgedTwice(was: seq<Email>, objects: set<string>, gone: set<nat>, emails: seq<Email>, left: set<string>,
                    done: set<nat>, now: seq<Email>, rest: set<string>)
    requires HalfPurged(was, objects, gone, emails, left) && HalfPurged(emails, left, done, now, rest) && gone !! done
    ensures HalfPurged(was, objects, gone + done, now, rest)
  {
    assert KeysOf(was, gone + done) == KeysOf(was, gone) + KeysOf(emails, done);
  }

  lemma PurgedAgain(d: Progress, emails: seq<Email>, left: set<string>, done: set<nat>,
                    now: seq<Email>, rest: set<string>)
    requires d.Reached(emails, left) && HalfPurged(emails, left, done, now, rest) && d.gone !! done
    requires d.Advance(done).Counted()
    ensures d.Advance(done).Reached(now, rest)
  {
    PurgedTwice(d.was, d.objects, d.gone, emails, left, done, now, rest);
  }

  lemma DrainStarts(was: seq<Email>, objects: set<string>, due: set<nat>, f: nat)
    ensures Progress(was, objects, due, f, {}, 0, 0).Reached(was, objects)
  {
    NothingPurged(was, objects);
    assert due - {} == due;
  }

  // what a finished sweep guarantees
  predicate Drained(was: seq<Email>, objects: set<string>, query: Query, w: Sweep, f: nat,
                    emails: seq<Email>, left: set<string>, total: nat, rounds: nat)
  {
    var due, rest := Matching(was, query), Matching(emails, query);
    && rest <= due && HalfPurged(was, objects, due - rest, emails, left)
    && total == |due - rest| == |due| - |rest|
    && Enough(total, |due|, f)
    && rounds <= MAX_DRAIN_BATCHES
    && (rounds < |w.broken| && f < PURGE_BATCH ==> rest <= w.broken[rounds] && |rest| <= f)
  }

  lemma WhatIsLeft(d: Progress, query: Query, emails: seq<Email>, left: set<string>)
    requires d.due == Matching(d.was, query) && d.Reached(emails, left)
    ensures Matching(emails, query) == d.due - d.gone && d.due - Matching(emails, query) == d.gone
  {
    MatchingAfter(d.was, query, d.gone);
    assert d.due - (d.due - d.gone) == d.gone;
  }

  lemma DrainEnds(d: Progress, query: Query, w: Sweep, emails: seq<Email>, left: set<string>)
    requires d.due == Matching(d.was, query) && |w.broken| == MAX_DRAIN_BATCHES
    requires d.Reached(emails, left) && d.rounds <= MAX_DRAIN_BATCHES
    requires d.rounds < |w.broken| ==> d.OnlyFailing(w.broken[d.rounds])
    ensures Drained(d.was, d.objects, query, w, d.f, emails, left, d.total, d.rounds)
  {
    WhatIsLeft(d, query, emails, left);
    EnoughPurged(d.total, |d.due|, |d.due - d.gone|, d.rounds, d.f);
  }

  // ORDER BY random() LIMIT 100
  method Select(db: Database, query: Query, order: seq<nat>, ghost d: Progress) returns (rows: seq<nat>)
    requires d.Reached(db.emails, d.objects - KeysOf(d.was, d.gone)) && d.due == Matching(d.was, query)
    requires IsOrder(order, |db.emails|)
    ensures Selection(rows, d.due - d.gone) && HaveObjects(db.emails, rows)
  {
    MatchingAfter(d.was, query, d.gone);
    OrderedSelection(order, d.due - d.gone, |db.emails|);
    rows := Pick(order, Matching(db.emails, query), PURGE_BATCH);
  }

  /** Drain lower bound: with n matching mails of which at most f fail in any round,
      a sweep purges at least min(n - f, 50 * (100 - f)) of them however the
      batches are drawn. With f < 100 it stops before its 50 rounds are used up only when
      everything left has just failed. It nulls the pointers of matching mails
      only, deletes exactly their objects, and its result counts them. */
  method Drain(db: Database, r2: Bucket, query: Query, w: Sweep, ghost f: nat) returns (total: nat, rounds: nat)
    requires Orders(w, |db.emails|) && AtMostFail(w, Matching(db.emails, query), f)
    modifies db`emails, db`committed, r2
    ensures Drained(old(db.emails), old(r2.objects), query, w, f, db.emails, r2.objects, total, rounds)
    ensures old(db.committed == db.View()) ==> db.committed == db.View()
  {
    ghost var start := Progress(db.emails, r2.objects, Matching(db.emails, query), f, {}, 0, 0);
    DrainStarts(db.emails, r2.objects, start.due, f);
    ghost var d;
    total, rounds, d := DrainRounds(db, r2, query, w, start);
    DrainEnds(d, query, w, db.emails, r2.objects);
  }

  method DrainRounds(db: Database, r2: Bucket, query: Query, w: Sweep, ghost start: Progress)
    returns (total: nat, rounds: nat, ghost d: Progress)
    requires start == Progress(db.emails, r2.objects, Matching(db.emails, query), start.f, {}, 0, 0)
    requires start.Reached(db.emails, r2.objects)
    requires Orders(w, |db.emails|) && AtMostFail(w, start.due, start.f)
    modifies db`emails, db`committed, r2
    ensures d == start.(gone := d.gone, total := total, rounds := rounds) && d.Reached(db.emails, r2.objects)
    ensures rounds <= MAX_DRAIN_BATCHES && (rounds < MAX_DRAIN_BATCHES ==> d.OnlyFailing(w.broken[rounds]))
    ensures old(db.committed == db.View()) ==> db.committed == db.View()
  {
    total := 0;
    rounds := 0;
    d := start;
    while rounds < MAX_DRAIN_BATCHES
      invariant d == start.(gone := d.gone, total := total, rounds := rounds) && rounds <= MAX_DRAIN_BATCHES
      invariant d.Reached(db.emails, r2.objects)
      invariant old(db.committed == db.View()) ==> db.committed == db.View()
    {
      var rows := Select(db, query, w.orders[rounds], d);
      var purged;
      purged, d := DrainBatch(db, r2, rows, w.broken[rounds], d);
      if purged == 0 {
        return;
      }
      total := total + purged;
      rounds := rounds + 1;
    }
  }

  // one round: an empty selection ends the sweep, and so does a batch that only failed
  method DrainBatch(db: Database, r2: Bucket, rows: seq<nat>, broken: set<nat>, ghost d: Progress)
    returns (purged: nat, ghost next: Progress)
    requires d.Reached(db.emails, r2.objects) && HaveObjects(db.emails, rows)
    requires Selection(rows, d.due - d.gone) && |broken * d.due| <= d.f
    modifies db`emails, db`committed, r2
    ensures next.Reached(db.emails, r2.objects)
    ensures purged == 0 ==> next == d && d.OnlyFailing(broken)
    ensures purged > 0 ==> next == d.(gone := next.gone, total := d.total + purged, rounds := d.rounds + 1)
    ensures old(db.committed == db.View()) ==> db.committed == db.View()
  {
    ghost var emails, left, done := db.emails, r2.objects, Deletable(rows, |rows|, broken);
    purged := 0;
    if rows != [] {
      purged := PurgeBatch(db, r2, rows, broken);
    } else {
      NothingPurged(emails, left);
    }
    if purged == 0 {
      next := d;
      RoundStuck(d, rows, broken);
      NothingHappened(emails, left, db.emails, r2.objects);
    } else {
      next := d.Advance(done);
      RoundCounts(d, rows, broken);
      PurgedAgain(d, emails, left, done, db.emails, r2.objects);
    }
  }

  /** A sweep without failures over at most 5000 matching mails leaves none: it nulls the
      pointer of every mail that matched and changes no other mail. */
  lemma CleanSweep(was: seq<Email>, objects: set<string>, query: Query, w: Sweep, emails: seq<Email>, left: set<string>,
                   total: nat, rounds: nat)
    requires Drained(was, objects, query, w, 0, emails, left, total, rounds)
    requires |Matching(was, query)| <= MAX_DRAIN_BATCHES * PURGE_BATCH
    ensures Matching(emails, query) == {} && total == |Matching(was, query)| && |emails| == |was|
    ensures forall i :: 0 <= i < |was| ==>
      emails[i] == if query.Matches(was[i]) then was[i].(key := None) else was[i]
  {
    var due, rest := Matching(was, query), Matching(emails, query);
    assert rest == {};
    assert due - rest == due;
  }

  // what one run of a sweep leaves, for both queries
  predicate Swept(was: seq<Email>, objects: set<string>, query: Query, f: nat, emails: seq<Email>, left: set<string>,
                  total: nat)
  {
    var due, rest := Matching(was, query), Matching(emails, query);
    && |emails| == |was| && rest <= due && total == |due| - |rest| && left == objects - KeysOf(was, due - rest)
    && (forall i :: 0 <= i < |was| ==> emails[i] == if i in due - rest then was[i].(key := None) else was[i])
    && Enough(total, |due|, f)
    && (f == 0 && |due| <= MAX_DRAIN_BATCHES * PURGE_BATCH ==> rest == {})
  }

  lemma DrainedSweeps(was: seq<Email>, objects: set<string>, query: Query, w: Sweep, f: nat, emails: seq<Email>,
                      left: set<string>, total: nat, rounds: nat)
    requires Drained(was, objects, query, w, f, emails, left, total, rounds)
    ensures Swept(was, objects, query, f, emails, left, total)
  {
    if f == 0 && |Matching(was, query)| <= MAX_DRAIN_BATCHES * PURGE_BATCH {
      CleanSweep(was, objects, query, w, emails, left, total, rounds);
    }
  }

  // only mails whose deadline has passed lose their object
  method PurgeDue(db: Database, r2: Bucket, now: int, w: Sweep, ghost f: nat) returns (total: nat)
    requires Orders(w, |db.emails|) && AtMostFail(w, Matching(db.emails, PendingDeletion(now)), f)
    modifies db`emails, db`committed, r2
    ensures Swept(old(db.emails), old(r2.objects), PendingDeletion(now), f, db.emails, r2.objects, total)
    ensures |db.emails| == |old(db.emails)|
    ensures forall i :: 0 <= i < |db.emails| && db.emails[i] != old(db.emails)[i] ==>
      var mail := old(db.emails)[i];
      mail.deadline.Some? && mail.deadline.value <= now && mail.key.Some? && mail.key.value !in r2.objects
    ensures f == 0 &&
            |set i: nat | i < |old(db.emails)| && old(db.emails)[i].deadline.Some? &&
                          old(db.emails)[i].deadline.value <= now && old(db.emails)[i].key.Some?| <= 5000 ==>
      forall i :: 0 <= i < |db.emails| ==>
        var mail := old(db.emails)[i];
        db.emails[i] == if mail.deadline.Some? && mail.deadline.value <= now then mail.(key := None) else mail
  {
    ghost var was, objects := db.emails, r2.objects;
    var rounds;
    total, rounds := Drain(db, r2, PendingDeletion(now), w, f);
    DrainedSweeps(was, objects, PendingDeletion(now), w, f, db.emails, r2.objects, total, rounds);
    assert Matching(was, PendingDeletion(now)) == set i: nat |
      i < |was| && was[i].deadline.Some? && was[i].deadline.value <= now && was[i].key.Some?;
  }

  method RetentionSweep(db: Database, r2: Bucket, now: int, retention: nat, w: Sweep, ghost f: nat) returns (total: nat)
    requires Orders(w, |db.emails|) && AtMostFail(w, Matching(db.emails, Retention(now - retention)), f)
    modifies db`emails, db`committed, r2
    ensures Swept(old(db.emails), old(r2.objects), Retention(now - retention), f, db.emails, r2.objects, total)
    ensures |db.emails| == |old(db.emails)|
    ensures forall i :: 0 <= i < |db.emails| && db.emails[i] != old(db.emails)[i] ==>
      var mail := old(db.emails)[i];
      mail.receivedAt.Some? && mail.receivedAt.value + retention < now && mail.key.Some? &&
      mail.key.value !in r2.objects
    ensures f == 0 &&
            |set i: nat | i < |old(db.emails)| && old(db.emails)[i].receivedAt.Some? &&
                          old(db.emails)[i].receivedAt.value + retention < now &&
                          old(db.emails)[i].key.Some?| <= 5000 ==>
      forall i :: 0 <= i < |db.emails| ==>
        var mail := old(db.emails)[i];
        db.emails[i] ==
          if mail.receivedAt.Some? && mail.receivedAt.value + retention < now then mail.(key := None) else mail
  {
    ghost var was, objects := db.emails, r2.objects;
    var rounds;
    total, rounds := Drain(db, r2, Retention(now - retention), w, f);
    DrainedSweeps(was, objects, Retention(now - retention), w, f, db.emails, r2.objects, total, rounds);
    assert Matching(was, Retention(now - retention)) == set i: nat |
      i < |was| && was[i].receivedAt.Some? && was[i].receivedAt.value + retention < now && was[i].key.Some?;
  }
}
