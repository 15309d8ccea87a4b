/** Runs that show where the stronger claims fail. */
module Witnesses {
  import opened Common
  import opened Digits
  import opened Schema
  import opened Pipeline
  import opened Ingest
  import opened World
  import opened Runs
  import Conservation
  import Fingerprint
  import Frames
  import Money
  import Originals
  import Outbox
  import RateBound
  import Review
  import ReviewRuns
  import Theorems
  import Waiting

  // a forwarding confirmation: it brings an event with the code and no extraction
  const CODE_MAIL := Reading(true, false, None, None, None, None, None, None, None, "USD", false)

  function Land(f: Flight): Step {
    Handle(f, CODE_MAIL, None, false, false, false)
  }

  function Mail(key: string): Message {
    Message("a", key, key, None)
  }

  // the events of confirmations that landed, by key and transaction start
  function Codes(mails: seq<(string, int)>): (events: seq<Event>)
    ensures |events| == if mails == [] then 0 else |mails| + 1
  {
    if mails == [] then []
    else
      var n := |mails| - 1;
      Codes(mails[..n]) + [NewEvent(None, "a", ForwardingCode(n), mails[n].1)] +
      if n == 0 then [NewEvent(None, "a", FirstEmail(0), mails[0].1)] else []
  }

  // the tables after them
  function Landed(mails: seq<(string, int)>): Tables {
    Tables(map["a" := Alias("u", None, true, |mails|)],
           seq(|mails|, i requires 0 <= i < |mails| =>
             NewMail(Mail(mails[i].0), mails[i].1).(status := Verification)),
           [], [], Codes(mails))
  }

  lemma AcceptsOne(mails: seq<(string, int)>, key: string, at: int)
    requires 0 < |key| <= 512
    ensures Accept(Landed(mails), Mail(key), at, Run(CODE_MAIL), None) == Landed(mails + [(key, at)])
  {
    var u := Accept(Landed(mails), Mail(key), at, Run(CODE_MAIL), None);
    assert Run(CODE_MAIL).route == VerificationMail;
    assert (mails + [(key, at)])[..|mails|] == mails;
    assert u.emails == Landed(mails + [(key, at)]).emails;
    assert u.aliases == Landed(mails + [(key, at)]).aliases;
    assert u.outbox == Landed(mails + [(key, at)]).outbox;
  }

  // landing one more confirmation, when nothing stands in its way
  lemma Lands(p: Policy, s: World, mails: seq<(string, int)>, f: Flight)
    requires s.t == Landed(mails) && f in s.flights && f.key in s.sent && s.sent[f.key] == Mail(f.key)
    requires 0 < |f.key| <= 512 && f.key in s.store && s.clock - f.at <= p.lag
    requires forall i :: 0 <= i < |mails| ==> 0 < |mails[i].0| <= 512 && mails[i].0 != f.key
    requires !OverLimit(p, s.t.emails, "a", s.clock)
    ensures Enabled(p, s, Land(f))
    ensures Next(p, s, Land(f)) == s.(t := Landed(mails + [(f.key, f.at)]), flights := s.flights - multiset{f})
  {
    var m := Mail(f.key);
    assert !Seen(s.t.emails, "a", MessageId(m)) && !Owned(s.t.emails, Key(m));
    AcceptsOne(mails, f.key, f.at);
  }

  // ---- building runs ----------------------------------------------------------------------

  // a fresh mail is stored and queued, its delivery begins at `start`
  lemma Begins(p: Policy, s: World, key: string, start: int) returns (steps: seq<Step>)
    requires key !in s.sent && |key| <= 512 && s.clock <= start
    requires !Owned(s.t.emails, key) && (forall f :: f in s.flights ==> f.key != key)
    ensures Valid(p, s, steps)
    ensures End(p, s, steps) == s.(store := s.store + {key}, sent := s.sent[key := Mail(key)],
                                   uploading := s.uploading + {key} - {key},
                                   queue := s.queue + {key}, clock := start,
                                   flights := s.flights + multiset{Flight(key, start)})
  {
    var s1 := Next(p, s, Put(Mail(key)));
    var s2 := Next(p, s1, Send(key));
    var s3 := Next(p, s2, Tick(start));
    var s4 := Next(p, s3, Deliver(key, false));
    assert Valid(p, s4, []);
    Extend(p, s3, Deliver(key, false), []);
    Extend(p, s2, Tick(start), [Deliver(key, false)] + []);
    Extend(p, s1, Send(key), [Tick(start)] + ([Deliver(key, false)] + []));
    Extend(p, s, Put(Mail(key)), [Send(key)] + ([Tick(start)] + ([Deliver(key, false)] + [])));
    steps := [Put(Mail(key))] + ([Send(key)] + ([Tick(start)] + ([Deliver(key, false)] + [])));
  }

  // it reaches its checks at `check` and lands
  lemma Finishes(p: Policy, s: World, mails: seq<(string, int)>, f: Flight, check: int) returns (steps: seq<Step>)
    requires s.t == Landed(mails) && f in s.flights && f.key in s.sent && s.sent[f.key] == Mail(f.key)
    requires 0 < |f.key| <= 512 && f.key in s.store && s.clock <= check <= f.at + p.lag
    requires forall i :: 0 <= i < |mails| ==> 0 < |mails[i].0| <= 512 && mails[i].0 != f.key
    requires !OverLimit(p, Landed(mails).emails, "a", check)
    ensures Valid(p, s, steps)
    ensures End(p, s, steps) == s.(t := Landed(mails + [(f.key, f.at)]), clock := check,
                                   flights := s.flights - multiset{f})
  {
    var s1 := Next(p, s, Tick(check));
    Lands(p, s1, mails, f);
    assert Valid(p, Next(p, s1, Land(f)), []);
    Extend(p, s1, Land(f), []);
    Extend(p, s, Tick(check), [Land(f)] + []);
    steps := [Tick(check)] + ([Land(f)] + []);
  }

  function Opened(): World {
    START.(t := Landed([]))
  }

  lemma Opens(p: Policy, rest: seq<Step>) returns (steps: seq<Step>)
    requires Valid(p, Opened(), rest)
    ensures Valid(p, START, steps) && End(p, START, steps) == End(p, Opened(), rest)
  {
    assert Next(p, START, CreateAlias("a", "u", None)) == Opened();
    Extend(p, START, CreateAlias("a", "u", None), rest);
    steps := [CreateAlias("a", "u", None)] + rest;
  }

  // ---- overlapping deliveries of one key -------------------------------------------------

  // two deliveries of "k" under way, both past the key lookup
  function Twice(): World {
    var f := Flight("k", 0);
    Opened().(store := {"k"}, sent := map["k" := Mail("k")], queue := {"k"}, flights := multiset{f, f})
  }

  lemma TwiceUnderWay(p: Policy) returns (steps: seq<Step>)
    requires !p.exclusive
    ensures Valid(p, Opened(), steps) && End(p, Opened(), steps) == Twice()
  {
    var once := Begins(p, Opened(), "k", 0);
    var s := End(p, Opened(), once);
    assert Next(p, s, Deliver("k", false)) == Twice();
    assert Valid(p, Twice(), []);
    Extend(p, s, Deliver("k", false), []);
    Chain(p, Opened(), once, [Deliver("k", false)] + []);
    steps := once + ([Deliver("k", false)] + []);
  }

  lemma FirstLands(p: Policy) returns (steps: seq<Step>)
    requires !p.exclusive
    ensures Valid(p, Opened(), steps)
    ensures End(p, Opened(), steps) == Twice().(t := Landed([("k", 0)]), flights := multiset{Flight("k", 0)})
  {
    steps := TwiceUnderWay(p);
    assert Recent(Landed([]).emails, "a", 0 - p.window) == {};
    var rest := Finishes(p, Twice(), [], Flight("k", 0), 0);
    assert Twice().flights - multiset{Flight("k", 0)} == multiset{Flight("k", 0)};
    assert [] + [("k", 0)] == [("k", 0)];
    Chain(p, Opened(), steps, rest);
    steps := steps + rest;
  }

  // the second delivery finds the Message-ID of the first one's row and drops its object
  lemma OverlapRun(p: Policy) returns (steps: seq<Step>)
    requires !p.exclusive && !p.recheck
    ensures Valid(p, START, steps) && !Conservation.OwnersHold(End(p, START, steps))
  {
    var run := FirstLands(p);
    var s, f := End(p, Opened(), run), Flight("k", 0);
    assert s.t.emails[0].messageId == MessageId(Mail("k"));
    var after := s.(flights := multiset{}, store := {});
    assert Enabled(p, s, Land(f)) && Next(p, s, Land(f)) == after;
    assert after.t.emails[0].key == Some("k");
    assert Valid(p, after, []);
    Extend(p, s, Land(f), []);
    Chain(p, Opened(), run, [Land(f)] + []);
    steps := Opens(p, run + ([Land(f)] + []));
  }

  /** Ownership safety holds in all runs exactly when deliveries of one key never overlap
      or the key lookup is repeated under the alias lock. The program does neither by
      itself: two overlapping deliveries, both past the lookup, delete an owned object. */
  lemma OwnershipNeedsAGuard(p: Policy)
    ensures (forall steps :: Valid(p, START, steps) ==> Conservation.OwnersHold(End(p, START, steps)))
        <==> p.exclusive || p.recheck
  {
    if p.exclusive || p.recheck {
      forall steps | Valid(p, START, steps) ensures Conservation.OwnersHold(End(p, START, steps)) {
        Theorems.OwnersKeepObjects(p, steps);
      }
    } else {
      var steps := OverlapRun(p);
    }
  }

  // ---- a transaction that waits for the alias lock ------------------------------------------

  // 10^width different keys
  function Name(i: nat, width: nat): (key: string)
    ensures |key| == width
  {
    Padded(i, width)
  }

  lemma NamesDiffer(i: nat, j: nat, width: nat)
    requires i < Pow10(width) && j < Pow10(width)
    ensures Name(i, width) == Name(j, width) <==> i == j
  {
    PaddedInverse(i, width);
    PaddedInverse(j, width);
  }

  function Rows(n: nat, width: nat): seq<(string, int)> {
    seq(n, i requires 0 <= i < n => (Name(i, width), 0))
  }

  // n mails landed at time 0
  ghost predicate Full(s: World, n: nat, width: nat) {
    && s.t == Landed(Rows(n, width)) && s.flights == multiset{} && s.clock == 0 && s.polls == {} && s.configs == []
    && forall i: nat :: n <= i < Pow10(width) ==> Name(i, width) !in s.sent
  }

  lemma NewName(n: nat, width: nat)
    requires n < Pow10(width) && 0 < width <= 512
    ensures forall i :: 0 <= i < n ==> 0 < |Rows(n, width)[i].0| <= 512 && Rows(n, width)[i].0 != Name(n, width)
  {
    forall i | 0 <= i < n ensures Rows(n, width)[i].0 != Name(n, width) {
      NamesDiffer(i, n, width);
    }
  }

  // one more mail lands that began at `start` and was checked at `check`
  lemma OneMore(p: Policy, s: World, n: nat, width: nat, start: int, check: int) returns (steps: seq<Step>)
    requires n < Pow10(width) && 0 < width <= 512 && Full(s, n, width) && 0 <= start <= check <= start + p.lag
    requires !OverLimit(p, Landed(Rows(n, width)).emails, "a", check)
    ensures Valid(p, s, steps)
    ensures var s' := End(p, s, steps);
            && s'.t == Landed(Rows(n, width) + [(Name(n, width), start)])
            && s'.flights == multiset{} && s'.clock == check
            && s'.sent == s.sent[Name(n, width) := Mail(Name(n, width))]
            && s'.polls == s.polls && s'.configs == s.configs
  {
    var key := Name(n, width);
    NewName(n, width);
    assert !Owned(s.t.emails, key);
    steps := Begins(p, s, key, start);
    var s1 := End(p, s, steps);
    var rest := Finishes(p, s1, Rows(n, width), Flight(key, start), check);
    assert s1.flights - multiset{Flight(key, start)} == multiset{};
    Chain(p, s, steps, rest);
    steps := steps + rest;
  }

  lemma RecentRows(n: nat, width: nat, since: int)
    ensures |Recent(Landed(Rows(n, width)).emails, "a", since)| == if since <= 0 then n else 0
  {
    var all := Recent(Landed(Rows(n, width)).emails, "a", since);
    if since <= 0 {
      assert all == Upto(n);
    } else {
      assert all == {};
    }
  }

  function Upto(n: nat): (s: set<nat>)
    ensures |s| == n && forall i :: i in s <==> 0 <= i < n
  {
    if n == 0 then {} else Upto(n - 1) + {n - 1}
  }

  lemma AllInWindow(n: nat, width: nat, start: int, span: nat)
    requires 0 <= start <= span
    ensures |RateBound.InWindow(Landed(Rows(n, width) + [(Name(n, width), start)]).emails, "a", 0, span)| == n + 1
  {
    assert RateBound.InWindow(Landed(Rows(n, width) + [(Name(n, width), start)]).emails, "a", 0, span) == Upto(n + 1);
  }

  lemma StillFull(s: World, s': World, n: nat, width: nat)
    requires Full(s, n, width) && n < Pow10(width)
    requires s'.t == Landed(Rows(n, width) + [(Name(n, width), 0)]) && s'.flights == multiset{} && s'.clock == 0
    requires s'.sent == s.sent[Name(n, width) := Mail(Name(n, width))] && s'.polls == s.polls && s'.configs == s.configs
    ensures Full(s', n + 1, width)
  {
    assert Rows(n, width) + [(Name(n, width), 0)] == Rows(n + 1, width);
    forall i: nat | n + 1 <= i < Pow10(width) ensures Name(i, width) !in s'.sent {
      NamesDiffer(i, n, width);
    }
  }

  lemma FillOne(p: Policy, s: World, n: nat, width: nat) returns (steps: seq<Step>)
    requires n < Pow10(width) && 0 < width <= 512 && n < p.limit && Full(s, n, width)
    ensures Valid(p, s, steps) && Full(End(p, s, steps), n + 1, width)
  {
    RecentRows(n, width, 0 - p.window);
    steps := OneMore(p, s, n, width, 0, 0);
    StillFull(s, End(p, s, steps), n, width);
  }

  lemma {:induction false} FillUp(p: Policy, n: nat, width: nat) returns (steps: seq<Step>)
    requires n <= Pow10(width) && 0 < width <= 512 && n <= p.limit
    ensures Valid(p, Opened(), steps) && Full(End(p, Opened(), steps), n, width)
  {
    if n == 0 {
      steps := [];
      assert Rows(0, width) == [];
    } else {
      steps := FillUp(p, n - 1, width);
      var rest := FillOne(p, End(p, Opened(), steps), n - 1, width);
      Chain(p, Opened(), steps, rest);
      steps := steps + rest;
    }
  }

  // a full window, and one more mail that waited until the window had moved on
  lemma LaggingRun(p: Policy, width: nat, span: nat) returns (steps: seq<Step>)
    requires 0 < p.limit < Pow10(width) && 0 < width <= 512 && span > p.window - p.lag
    ensures Valid(p, START, steps)
    ensures |RateBound.InWindow(End(p, START, steps).t.emails, "a", 0, span)| > p.limit
  {
    var n := p.limit;
    var run := FillUp(p, n, width);
    var s := End(p, Opened(), run);
    var start: int := if p.window - p.lag + 1 > 0 then p.window - p.lag + 1 else 0;
    RecentRows(n, width, start + p.lag - p.window);
    var rest := OneMore(p, s, n, width, start, start + p.lag);
    Chain(p, Opened(), run, rest);
    steps := Opens(p, run + rest);
    AllInWindow(n, width, start, span);
  }

  /** The window that is really bounded: every closed window of length `span` holds at
      most `limit` rows of an alias, in all runs, exactly when `span` is at most the
      configured window less the longest wait between the start of a transaction and
      its rate check. It takes a limit that keys of at most 512 characters can exceed;
      decimal names of `width` digits show every limit below 10^512 to be one. */
  lemma RateWindowIsExact(p: Policy, width: nat, span: nat)
    requires 0 < p.limit < Pow10(width) && 0 < width <= 512
    ensures (forall steps, alias, lo, hi :: Valid(p, START, steps) && hi - lo <= span ==>
               |RateBound.InWindow(End(p, START, steps).t.emails, alias, lo, hi)| <= p.limit)
        <==> span <= p.window - p.lag
  {
    if span <= p.window - p.lag {
      forall steps, alias, lo, hi | Valid(p, START, steps) && hi - lo <= span
        ensures |RateBound.InWindow(End(p, START, steps).t.emails, alias, lo, hi)| <= p.limit
      {
        Theorems.RateHolds(p, steps, alias, lo, hi);
      }
    } else {
      var steps := LaggingRun(p, width, span);
    }
  }

  // ---- a duplicate of nothing ---------------------------------------------------------------

  const NO_LIMIT := Policy(0, 0, 0, 0, 0, true, false)

  // the mail was sent and is nowhere: its object was neither leaked nor taken by a purge or
  // the bucket lifecycle, and no mail with its Message-ID was ever accepted
  predicate LostToADuplicate(s: World, key: string) {
    && key in s.sent && key !in s.store + s.leaked + s.reaped + s.uploading
    && (forall f :: f in s.flights ==> f.key != key)
    && !Original(s.t.emails, s.sent[key].alias, MessageId(s.sent[key]))
  }

  // the first copy's object expired before its delivery, which left an error row
  predicate ErrorRowLeft(s: World) {
    && s.t == RecordMissing(Landed([]), Mail("k"), 0) && s.flights == multiset{} && s.clock == 0
    && s.store == {} && s.leaked == {} && s.reaped == {"k"} && s.uploading == {} && "l" !in s.sent
  }

  // a delivery whose object has expired
  lemma LandsOnNothing(s: World)
    requires s.t == Landed([]) && s.flights == multiset{Flight("k", 0)} && s.clock == 0 && s.store == {}
    requires "k" in s.sent && s.sent["k"] == Mail("k")
    ensures Enabled(NO_LIMIT, s, Land(Flight("k", 0)))
    ensures Next(NO_LIMIT, s, Land(Flight("k", 0))) ==
            s.(t := RecordMissing(Landed([]), Mail("k"), 0), flights := multiset{})
  {
    assert Run(CODE_MAIL).route == VerificationMail;
  }

  lemma ReachErrorRow() returns (steps: seq<Step>)
    ensures Valid(NO_LIMIT, Opened(), steps) && ErrorRowLeft(End(NO_LIMIT, Opened(), steps))
  {
    var p, land := NO_LIMIT, Land(Flight("k", 0));
    steps := Begins(p, Opened(), "k", 0);
    var s := End(p, Opened(), steps);
    var s1 := Next(p, s, Expire("k"));
    LandsOnNothing(s1);
    Extend(p, s1, land, []);
    Extend(p, s, Expire("k"), [land] + []);
    Chain(p, Opened(), steps, [Expire("k")] + ([land] + []));
    steps := steps + ([Expire("k")] + ([land] + []));
  }

  function SecondCopy(): Message {
    Message("a", "l", "k", None)
  }

  // the second copy under way
  predicate CopyUnderWay(s: World) {
    && s.t == RecordMissing(Landed([]), Mail("k"), 0) && s.flights == multiset{Flight("l", 0)} && s.clock == 0
    && s.store == {"l"} && s.leaked == {} && s.reaped == {"k"} && s.uploading == {}
    && "l" in s.sent && s.sent["l"] == SecondCopy()
  }

  lemma LandsOnTheErrorRow(s: World)
    requires CopyUnderWay(s)
    ensures Enabled(NO_LIMIT, s, Land(Flight("l", 0)))
    ensures LostToADuplicate(Next(NO_LIMIT, s, Land(Flight("l", 0))), "l")
  {
    assert s.t.emails[0].messageId == MessageId(SecondCopy());
    assert Run(CODE_MAIL).route == VerificationMail;
  }

  lemma ForwardedAgain(s: World) returns (steps: seq<Step>)
    requires ErrorRowLeft(s)
    ensures Valid(NO_LIMIT, s, steps) && LostToADuplicate(End(NO_LIMIT, s, steps), "l")
  {
    var p, m, land := NO_LIMIT, SecondCopy(), Land(Flight("l", 0));
    var s1 := Next(p, s, Put(m));
    var s2 := Next(p, s1, Send("l"));
    var s3 := Next(p, s2, Deliver("l", false));
    LandsOnTheErrorRow(s3);
    Extend(p, s3, land, []);
    Extend(p, s2, Deliver("l", false), [land] + []);
    Extend(p, s1, Send("l"), [Deliver("l", false)] + ([land] + []));
    Extend(p, s, Put(m), [Send("l")] + ([Deliver("l", false)] + ([land] + [])));
    steps := [Put(m)] + ([Send("l")] + ([Deliver("l", false)] + ([land] + [])));
  }

  /** A run in which a mail is lost that way: its first copy expires before delivery, and
      the copy forwarded again is deleted as a duplicate of the error row. */
  lemma DuplicateOfAnErrorRow()
    ensures exists steps :: Valid(NO_LIMIT, START, steps) && LostToADuplicate(End(NO_LIMIT, START, steps), "l")
  {
    var first := ReachErrorRow();
    var second := ForwardedAgain(End(NO_LIMIT, Opened(), first));
    Chain(NO_LIMIT, Opened(), first, second);
    var steps := Opens(NO_LIMIT, first + second);
  }

  // ---- an event inserted late ------------------------------------------------------------------

  const LATE := Policy(100, 0, 0, 0, 2, true, false)

  lemma {:induction false} CodesDue(mails: seq<(string, int)>)
    ensures forall k :: 0 <= k < |Codes(mails)| ==>
      var e := Codes(mails)[k];
      e.status == Waiting && e.apiKey.None? && e.nextAt == mails[if k == 0 then 0 else k - 1].1
  {
    if mails == [] {
    } else {
      CodesDue(mails[..|mails| - 1]);
    }
  }

  // eighteen confirmations, then the twentieth overtakes the nineteenth
  function Twenty(): seq<(string, int)> {
    Rows(18, 2) + [(Name(19, 2), 2)]
  }

  function TwentyOne(): seq<(string, int)> {
    Twenty() + [(Name(18, 2), 1)]
  }

  lemma LateNames()
    ensures forall i :: 0 <= i < 18 ==> Rows(18, 2)[i].0 != Name(18, 2) && Rows(18, 2)[i].0 != Name(19, 2)
    ensures Name(18, 2) != Name(19, 2)
  {
    assert Pow10(1) == 10 * Pow10(0) == 10;
    assert Pow10(2) == 10 * Pow10(1) == 100;
    NamesDiffer(18, 19, 2);
    forall i | 0 <= i < 18 ensures Rows(18, 2)[i].0 != Name(18, 2) && Rows(18, 2)[i].0 != Name(19, 2) {
      NamesDiffer(i, 18, 2);
      NamesDiffer(i, 19, 2);
    }
  }

  // the moment: twenty events are due by 2, and a delivery that began at 1 is under way
  predicate OneUnderWay(s: World) {
    var f := Flight(Name(18, 2), 1);
    && s.t == Landed(Twenty()) && s.flights == multiset{f} && s.clock == 3 && s.polls == {} && s.configs == []
    && f.key in s.sent && s.sent[f.key] == Mail(f.key) && f.key in s.store
  }

  lemma NothingRecent(mails: seq<(string, int)>, since: int)
    requires forall i :: 0 <= i < |mails| ==> mails[i].1 < since
    ensures Recent(Landed(mails).emails, "a", since) == {}
  {
  }

  // eighteen events wait and two deliveries have begun
  predicate BothUnderWay(s: World) {
    var a, b := Name(18, 2), Name(19, 2);
    && s.t == Landed(Rows(18, 2)) && s.flights == multiset{Flight(a, 1), Flight(b, 2)} && s.clock == 2
    && s.polls == {} && s.configs == []
    && forall key :: key in {a, b} ==> key in s.sent && s.sent[key] == Mail(key) && key in s.store
  }

  lemma BothBegin(s: World) returns (run: seq<Step>)
    requires Full(s, 18, 2)
    ensures Valid(LATE, s, run) && BothUnderWay(End(LATE, s, run))
  {
    LateNames();
    var first := Begins(LATE, s, Name(18, 2), 1);
    var s1 := End(LATE, s, first);
    var second := Begins(LATE, s1, Name(19, 2), 2);
    Chain(LATE, s, first, second);
    run := first + second;
  }

  // the one that began last lands first
  lemma LastLands(s: World) returns (run: seq<Step>)
    requires BothUnderWay(s)
    ensures Valid(LATE, s, run) && OneUnderWay(End(LATE, s, run))
  {
    LateNames();
    NothingRecent(Rows(18, 2), 3);
    run := Finishes(LATE, s, Rows(18, 2), Flight(Name(19, 2), 2), 3);
    assert s.flights - multiset{Flight(Name(19, 2), 2)} == multiset{Flight(Name(18, 2), 1)};
  }

  lemma ReachOneUnderWay() returns (before: seq<Step>)
    ensures Valid(LATE, START, before) && OneUnderWay(End(LATE, START, before))
  {
    assert Pow10(1) == 10 * Pow10(0) == 10;
    assert Pow10(2) == 10 * Pow10(1) == 100;
    var run := FillUp(LATE, 18, 2);
    var begun := BothBegin(End(LATE, Opened(), run));
    Chain(LATE, Opened(), run, begun);
    var landed := LastLands(End(LATE, Opened(), run + begun));
    Chain(LATE, Opened(), run + begun, landed);
    before := Opens(LATE, run + begun + landed);
  }

  // the nineteen events at 0, and the one that came last but is due before the twentieth
  function FirstTwenty(): seq<nat> {
    seq(19, i => i) + [20]
  }

  function Deferral(): Outbox.Batch {
    Outbox.Batch(3, 0, 3, FirstTwenty(), seq(20, i => Outbox.View([], {})), seq(20, i => Outbox.Answer(false, "")))
  }

  const HELD := Outbox.Lease(3, 0, FirstTwenty())

  // the late delivery has landed
  predicate TwentyOneThere(s: World) {
    s.t == Landed(TwentyOne()) && s.clock == 3 && s.configs == []
  }

  lemma FirstTwentyAre(k: nat)
    ensures k in FirstTwenty() <==> k < 19 || k == 20
  {
    var rows := FirstTwenty();
    if k < 19 {
      assert rows[k] == k;
    }
    if k == 20 {
      assert rows[19] == k;
    }
  }

  lemma TwentyOneDue(k: nat)
    requires k < 21
    ensures |Codes(TwentyOne())| == 21 && Codes(TwentyOne())[k].status == Waiting
    ensures Codes(TwentyOne())[k].nextAt == if k < 19 then 0 else if k == 19 then 2 else 1
  {
    CodesDue(TwentyOne());
  }

  lemma LateClaim(events: seq<Event>)
    requires events == Codes(TwentyOne())
    ensures Outbox.Claims(events, 3, {}, FirstTwenty())
  {
    var rows := FirstTwenty();
    forall k: nat | k < 21
      ensures |events| == 21 && events[k].status == Waiting
      ensures events[k].nextAt == if k < 19 then 0 else if k == 19 then 2 else 1
    {
      TwentyOneDue(k);
    }
    forall k: nat ensures k in rows <==> k < 19 || k == 20 {
      FirstTwentyAre(k);
    }
  }

  lemma CommitsExtend(p: Policy, s: World, step: Step, rest: seq<Step>, k: nat, free: set<Outbox.Lease>)
    requires Enabled(p, s, step) && Valid(p, Next(p, s, step), rest)
    ensures Valid(p, s, [step] + rest)
    ensures Waiting.Commits(p, s, [step] + rest, k, free) ==
            (if Waiting.Counts(step, free) then 1 else 0) +
            Waiting.Commits(p, Next(p, s, step), rest, k, Waiting.Counted(p, s, step, k, free))
  {
    assert ([step] + rest)[1..] == rest;
  }

  lemma LateLanding(s: World)
    requires OneUnderWay(s)
    ensures var step := Land(Flight(Name(18, 2), 1));
            && Enabled(LATE, s, step) && TwentyOneThere(Next(LATE, s, step)) && Next(LATE, s, step).polls == {}
  {
    LateNames();
    NothingRecent(Twenty(), 3);
    Lands(LATE, s, Twenty(), Flight(Name(18, 2), 1));
  }

  lemma LateClaiming(s: World)
    requires TwentyOneThere(s) && s.polls == {}
    ensures var step := Claim(FirstTwenty());
            && Enabled(LATE, s, step) && TwentyOneThere(Next(LATE, s, step)) && Next(LATE, s, step).polls == {HELD}
    ensures LockedRows(s) == {}
  {
    LateClaim(s.t.outbox);
    assert LockedRows(s) == {};
  }

  lemma LatePolling(s: World)
    requires TwentyOneThere(s) && s.polls == {HELD}
    ensures Enabled(LATE, s, Poll(Deferral())) && Deferral().Held() == HELD
  {
    LateClaim(s.t.outbox);
  }

  lemma OnePoll(p: Policy, s: World, b: Outbox.Batch, k: nat)
    requires Enabled(p, s, Poll(b)) && k !in b.claim
    ensures Valid(p, s, [Poll(b)]) && !Waiting.Served([Poll(b)], k)
    ensures Waiting.Commits(p, s, [Poll(b)], k, {b.Held()}) == 1
  {
    CommitsExtend(p, s, Poll(b), [], k, {b.Held()});
    assert [Poll(b)] + [] == [Poll(b)];
  }

  lemma PollCounts(s: World) returns (steps: seq<Step>)
    requires TwentyOneThere(s) && s.polls == {HELD}
    ensures Valid(LATE, s, steps) && !Waiting.Served(steps, 19)
    ensures Waiting.Commits(LATE, s, steps, 19, {HELD}) == 1
  {
    LatePolling(s);
    FirstTwentyAre(19);
    OnePoll(LATE, s, Deferral(), 19);
    steps := [Poll(Deferral())];
  }

  lemma ClaimCounts(s: World) returns (steps: seq<Step>)
    requires TwentyOneThere(s) && s.polls == {}
    ensures Valid(LATE, s, steps) && !Waiting.Served(steps, 19)
    ensures Waiting.Commits(LATE, s, steps, 19, {}) == 1
  {
    var claim := Claim(FirstTwenty());
    LateClaiming(s);
    var rest := PollCounts(Next(LATE, s, claim));
    CommitsExtend(LATE, s, claim, rest, 19, {});
    steps := [claim] + rest;
  }

  lemma Overtakes(s: World) returns (steps: seq<Step>)
    requires OneUnderWay(s)
    ensures Valid(LATE, s, steps) && !Waiting.Served(steps, 19)
    ensures Waiting.Commits(LATE, s, steps, 19, {}) == 1
  {
    var land := Land(Flight(Name(18, 2), 1));
    LateLanding(s);
    var rest := ClaimCounts(Next(LATE, s, land));
    CommitsExtend(LATE, s, land, rest, 19, {});
    steps := [land] + rest;
  }

  // row k was due by t, a whole batch for each twenty rows due by t has committed since,
  // and row k is still waiting
  ghost predicate Overtaken(p: Policy, s: World, steps: seq<Step>, t: int, k: nat)
    requires Valid(p, s, steps)
  {
    && s.clock > t && k in Waiting.Ahead(s.t.outbox, t) && !Waiting.Served(steps, k)
    && Outbox.BATCH * Waiting.Commits(p, s, steps, k, {}) >= |Waiting.Ahead(s.t.outbox, t)|
  }

  lemma TwentyDue(s: World)
    requires OneUnderWay(s)
    ensures |Waiting.Ahead(s.t.outbox, 2)| == 20 && 19 in Waiting.Ahead(s.t.outbox, 2)
  {
    CodesAhead(Twenty(), 2);
  }

  lemma {:induction false} CodesAhead(mails: seq<(string, int)>, t: int)
    requires mails != [] && forall i :: 0 <= i < |mails| ==> mails[i].1 <= t
    ensures |Waiting.Ahead(Codes(mails), t)| == |mails| + 1
    ensures forall k: nat :: k <= |mails| ==> k in Waiting.Ahead(Codes(mails), t)
  {
    CodesDue(mails);
    var all := Upto(|mails| + 1);
    SubsetSize(Waiting.Ahead(Codes(mails), t), all);
    SubsetSize(all, Waiting.Ahead(Codes(mails), t));
  }

  /** Twenty events are due by time 2, and one delivery that began at 1 is under way. It
      lands, its event is claimed with nineteen of them, and the twentieth is left behind:
      without the slack for deliveries under way the bound on the wait fails. */
  lemma EarlyInsertComesFirst()
    ensures exists before, steps ::
      && Valid(LATE, START, before) && Valid(LATE, End(LATE, START, before), steps)
      && Overtaken(LATE, End(LATE, START, before), steps, 2, 19)
  {
    var before := ReachOneUnderWay();
    var s := End(LATE, START, before);
    var steps := Overtakes(s);
    TwentyDue(s);
    assert Overtaken(LATE, s, steps, 2, 19);
  }

  // ---- reprocessing an original ---------------------------------------------------------------

  // the row as reprocessing leaves it before the duplicate check
  function RedoneRow(rows: seq<Extraction>, i: nat, r: Reading): Extraction
    requires i < |rows|
  {
    Review.Redone(rows[i], Run(r))
  }

  // the check applies to a row and finds it a duplicate
  predicate Duplicates(rows: seq<Extraction>, row: Extraction, i: nat) {
    row.status == Pending && row.fingerprint.Some? && exists j :: 0 <= j < |rows| && Originals.Evidence(rows, row, i, j)
  }

  /** "Earlier" in the duplicate check means "oldest other live row": a reprocessed row
      ends up flagged exactly when it is checked and any other pending or confirmed row of
      its user, older or younger, has the fingerprint it gets. */
  lemma ReprocessFlagsAgainstAnyLiveRow(t: Tables, store: set<string>, i: nat, r: Reading, pick: Option<nat>)
    requires Review.Reprocessable(t, store, i, Run(r))
    requires Review.PickFits(t.rows[i := RedoneRow(t.rows, i, r)], i, pick)
    ensures Review.Reprocess(t, store, i, Run(r), pick).0.rows[i].flagged == 1 <==>
              Duplicates(t.rows, RedoneRow(t.rows, i, r), i)
  {
    Originals.ReprocessFlags(t, store, i, r, pick);
    SameEvidence(t, store, i, r, pick);
  }

  // the flag is no part of the evidence
  lemma SameEvidence(t: Tables, store: set<string>, i: nat, r: Reading, pick: Option<nat>)
    requires Review.Reprocessable(t, store, i, Run(r))
    ensures var row, after := RedoneRow(t.rows, i, r), Review.Reprocess(t, store, i, Run(r), pick).0.rows[i];
            && after == row.(flagged := after.flagged)
            && forall j :: 0 <= j < |t.rows| ==>
                 (Originals.Evidence(t.rows, after, i, j) <==> Originals.Evidence(t.rows, row, i, j))
  {
  }

  // row i has a match row that points at a row younger than itself
  predicate PointsToYounger(t: Tables, i: nat) {
    i < |t.rows| &&
    exists m :: m in t.matches && m.extraction == i && m.candidate < |t.rows|
      && t.rows[m.candidate].createdAt > t.rows[i].createdAt
  }

  /** The match points at a younger row exactly when the row is a duplicate as reprocessed and
      all the evidence is younger. */
  lemma ReprocessPointsAtTheOldest(t: Tables, store: set<string>, i: nat, r: Reading, pick: Option<nat>)
    requires Review.Reprocessable(t, store, i, Run(r))
    requires Review.PickFits(t.rows[i := RedoneRow(t.rows, i, r)], i, pick)
    ensures var row := RedoneRow(t.rows, i, r);
            PointsToYounger(Review.Reprocess(t, store, i, Run(r), pick).0, i) <==>
              Duplicates(t.rows, row, i) &&
              forall j :: 0 <= j < |t.rows| && Originals.Evidence(t.rows, row, i, j) ==>
                t.rows[j].createdAt > row.createdAt
  {
    var u := Review.Reprocess(t, store, i, Run(r), pick).0;
    var kept := Review.Without(t.matches, i);
    Originals.ReprocessFlags(t, store, i, r, pick);
    SameEvidence(t, store, i, r, pick);
    Review.MatchesOfWithout(t.matches, i, i);
    var added := u.matches[|kept|..];
    assert u.matches == kept + added;
    if added != [] {
      assert added[0] in u.matches;
    }
  }

  // ---- a run in which that happens ----------------------------------------------------------

  const PURCHASE := Reading(false, true, Some(Money.Decimal(false, 1, 0)), Some("USD"), Some("Shop"),
                            Some(Fingerprint.Date(2026, 1, 1)), None, Some("Shop"), None, "USD", false)

  function Bought(i: nat): Extraction {
    Review.ApplyResult(Review.NewRow(i, "u", "a", i), Run(PURCHASE))
  }

  lemma PurchasesAlike(i: nat, j: nat)
    ensures Run(PURCHASE).route == ToReview && !Review.OutOfRange(Run(PURCHASE))
    ensures var r := Bought(i);
            r.status == Pending && r.fingerprint.Some? && r.fingerprint == Bought(j).fingerprint &&
            r.user == "u" && r.createdAt == i && r.email == i
    ensures Review.Redone(Bought(i).(flagged := j), Run(PURCHASE)) == Bought(i)
  {
    assert Pow10(0) == 1 && Pow10(11) == 10 * Pow10(10);
  }

  // n purchases, one a second, each stored with its mail
  ghost predicate Shopped(s: World, n: nat) {
    && "a" in s.t.aliases && s.t.aliases["a"].user == "u" && s.t.aliases["a"].active
    && |s.t.emails| == |s.t.rows| == n && s.flights == multiset{} && s.clock <= n
    && (forall i :: 0 <= i < n ==>
          && s.t.emails[i].key == s.t.emails[i].messageId == Some(Name(i, 1)) && Name(i, 1) in s.store
          && s.t.rows[i] == Bought(i).(flagged := s.t.rows[i].flagged))
    && forall i: nat :: n <= i < 10 ==> Name(i, 1) !in s.sent
  }

  function Buy(n: nat, pick: Option<nat>): Step {
    Handle(Flight(Name(n, 1), n), PURCHASE, pick, false, false, false)
  }

  function FirstOf(n: nat): Option<nat> {
    if n == 0 then None else Some(0)
  }

  lemma BuyPossible(s: World, n: nat)
    requires n < 10 && s.clock == n && "a" in s.t.aliases && s.t.aliases["a"].user == "u" && s.t.aliases["a"].active
    requires |s.t.emails| == |s.t.rows| == n && Buy(n, None).flight in s.flights
    requires Name(n, 1) in s.store && Name(n, 1) in s.sent && s.sent[Name(n, 1)] == Mail(Name(n, 1))
    requires forall i :: 0 <= i < n ==>
      s.t.emails[i].key == s.t.emails[i].messageId == Some(Name(i, 1))
      && s.t.rows[i] == Bought(i).(flagged := s.t.rows[i].flagged)
    ensures Enabled(NO_LIMIT, s, Buy(n, FirstOf(n)))
    ensures Next(NO_LIMIT, s, Buy(n, FirstOf(n))) ==
            s.(t := Accept(s.t, Mail(Name(n, 1)), n, Run(PURCHASE), FirstOf(n)),
                flights := s.flights - multiset{Buy(n, None).flight})
  {
    var m := Mail(Name(n, 1));
    assert Pow10(1) == 10 * Pow10(0) == 10;
    forall i | 0 <= i < n ensures Name(i, 1) != Name(n, 1) {
      NamesDiffer(i, n, 1);
    }
    assert !Seen(s.t.emails, "a", MessageId(m)) && !Owned(s.t.emails, Key(m));
    OldestPurchase(s.t, n);
  }

  lemma OldestPurchase(t: Tables, n: nat)
    requires "a" in t.aliases && t.aliases["a"].user == "u" && |t.emails| == |t.rows| == n
    requires forall i :: 0 <= i < n ==> t.rows[i] == Bought(i).(flagged := t.rows[i].flagged)
    ensures PickFits(t, Mail(Name(n, 1)), n, Run(PURCHASE), FirstOf(n))
  {
    var rows := Review.RowsWith(WithMail(t, Mail(Name(n, 1)), n), |t.emails|, "u", Run(PURCHASE), n);
    assert rows == t.rows + [Bought(n)];
    forall i | 0 <= i < n ensures Review.Candidate(rows, n, i) && rows[i].createdAt == i {
      PurchasesAlike(i, n);
    }
  }

  lemma TenNames(n: nat)
    requires n < 10
    ensures forall i: nat :: i < 10 ==> (Name(i, 1) == Name(n, 1) <==> i == n)
  {
    assert Pow10(1) == 10 * Pow10(0) == 10;
    forall i: nat | i < 10 ensures Name(i, 1) == Name(n, 1) <==> i == n {
      NamesDiffer(i, n, 1);
    }
  }

  lemma StillShopped(s: World, s': World, n: nat)
    requires n < 10 && Shopped(s, n) && PickFits(s.t, Mail(Name(n, 1)), n, Run(PURCHASE), FirstOf(n))
    requires s'.t == Accept(s.t, Mail(Name(n, 1)), n, Run(PURCHASE), FirstOf(n))
    requires s'.store == s.store + {Name(n, 1)} && s'.sent == s.sent[Name(n, 1) := Mail(Name(n, 1))]
    requires s'.flights == multiset{} && s'.clock == n
    ensures Shopped(s', n + 1)
  {
    TenNames(n);
    ShoppedNext(s.t, n);
    forall i | 0 <= i < n ensures s'.t.emails[i] == s.t.emails[i] && s'.t.rows[i] == s.t.rows[i] {
    }
  }

  lemma BuyOne(s: World, n: nat) returns (steps: seq<Step>)
    requires n < 10 && Shopped(s, n)
    ensures Valid(NO_LIMIT, s, steps) && Shopped(End(NO_LIMIT, s, steps), n + 1)
  {
    var p, key := NO_LIMIT, Name(n, 1);
    TenNames(n);
    assert !Owned(s.t.emails, key);
    steps := Begins(p, s, key, n);
    var s1 := End(p, s, steps);
    var buy := Buy(n, FirstOf(n));
    BuyPossible(s1, n);
    assert s1.flights - multiset{buy.flight} == multiset{};
    StillShopped(s, Next(p, s1, buy), n);
    Extend(p, s1, buy, []);
    Chain(p, s, steps, [buy] + []);
    steps := steps + ([buy] + []);
  }

  lemma ShoppedNext(t: Tables, n: nat)
    requires "a" in t.aliases && t.aliases["a"].user == "u" && |t.emails| == |t.rows| == n
    requires PickFits(t, Mail(Name(n, 1)), n, Run(PURCHASE), FirstOf(n))
    ensures var u := Accept(t, Mail(Name(n, 1)), n, Run(PURCHASE), FirstOf(n));
            && u.aliases == t.aliases["a" := u.aliases["a"]] && u.aliases["a"].user == "u"
            && u.aliases["a"].active == t.aliases["a"].active
            && |u.emails| == |u.rows| == n + 1 && u.emails[..n] == t.emails && u.rows[..n] == t.rows
            && u.emails[n].key == u.emails[n].messageId == Some(Name(n, 1))
            && u.rows[n] == Bought(n).(flagged := u.rows[n].flagged)
  {
    var m := Mail(Name(n, 1));
    PurchasesAlike(n, n);
    Frames.AcceptWrites(t, m, n, Run(PURCHASE), FirstOf(n));
    ReviewRuns.NewRowSound(t, m, n, PURCHASE, FirstOf(n));
  }

  lemma RedoPoints(t: Tables, store: set<string>)
    requires |t.emails| == |t.rows| == 2
    requires forall i :: 0 <= i < 2 ==> t.rows[i] == Bought(i).(flagged := t.rows[i].flagged)
    requires Truthy(t.emails[0].key).Some? && t.emails[0].key.value in store
    ensures Review.Reprocessable(t, store, 0, Run(PURCHASE))
    ensures Review.PickFits(t.rows[0 := RedoneRow(t.rows, 0, PURCHASE)], 0, Some(1))
    ensures PointsToYounger(Review.Reprocess(t, store, 0, Run(PURCHASE), Some(1)).0, 0)
  {
    PurchasesAlike(0, t.rows[0].flagged);
    PurchasesAlike(1, 0);
    assert RedoneRow(t.rows, 0, PURCHASE) == Bought(0);
    assert Originals.Evidence(t.rows, Bought(0), 0, 1);
    ReprocessPointsAtTheOldest(t, store, 0, PURCHASE, Some(1));
  }

  lemma RedoFirst(s: World)
    requires Shopped(s, 2)
    ensures var step := Reprocess(0, PURCHASE, Some(1));
            Enabled(NO_LIMIT, s, step) && PointsToYounger(Next(NO_LIMIT, s, step).t, 0)
  {
    PurchasesAlike(0, 0);
    PurchasesAlike(1, 0);
    RedoPoints(s.t, s.store);
  }

  /** Two equal purchases, then the first is reprocessed: it ends up pointing at the
      second, younger one. */
  lemma ReprocessFlagsAgainstAYoungerRow()
    ensures exists steps :: Valid(NO_LIMIT, START, steps) && PointsToYounger(End(NO_LIMIT, START, steps).t, 0)
  {
    var p := NO_LIMIT;
    assert Shopped(Opened(), 0);
    var first := BuyOne(Opened(), 0);
    var s := End(p, Opened(), first);
    var second := BuyOne(s, 1);
    Chain(p, Opened(), first, second);
    var s2 := End(p, s, second);
    var redo := Reprocess(0, PURCHASE, Some(1));
    RedoFirst(s2);
    Extend(p, s2, redo, []);
    Chain(p, Opened(), first + second, [redo] + []);
    var steps := Opens(p, first + second + ([redo] + []));
  }
}
