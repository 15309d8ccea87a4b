/** Duplicate flags in runs that only ingest and confirm, one transaction after the
    other: in every class of equal transactions the first row is the original. */
module Sequential {
  import opened Common
  import opened Schema
  import opened Pipeline
  import opened Ingest
  import opened World
  import opened Frames
  import opened Review
  import opened ReviewRuns

  predicate SameClass(a: Extraction, b: Extraction) {
    a.fingerprint.Some? && a.fingerprint == b.fingerprint && a.user == b.user
  }

  // the first row of row i's class
  function First(rows: seq<Extraction>, i: nat): (j: nat)
    requires i < |rows| && rows[i].fingerprint.Some?
    ensures j <= i && SameClass(rows[j], rows[i])
    ensures forall k :: 0 <= k < j ==> !SameClass(rows[k], rows[i])
  {
    FirstFrom(rows, i, 0)
  }

  function FirstFrom(rows: seq<Extraction>, i: nat, from: nat): (j: nat)
    requires from <= i < |rows| && rows[i].fingerprint.Some?
    requires forall k :: 0 <= k < from ==> !SameClass(rows[k], rows[i])
    ensures j <= i && SameClass(rows[j], rows[i])
    ensures forall k :: 0 <= k < j ==> !SameClass(rows[k], rows[i])
    decreases i - from
  {
    if SameClass(rows[from], rows[i]) then from else FirstFrom(rows, i, from + 1)
  }

  // row i is unflagged when it is the first of its class, and points at the first otherwise
  predicate FlagRight(t: Tables, i: nat)
    requires i < |t.rows| && t.rows[i].fingerprint.Some?
  {
    var j := First(t.rows, i);
    if j == i then t.rows[i].flagged == 0 && MatchesOf(t.matches, i) == []
    else t.rows[i].flagged == 1 && MatchesOf(t.matches, i) == [Match(i, j)]
  }

  predicate OriginalsFirst(t: Tables) {
    && (forall i, j :: 0 <= i < j < |t.rows| ==> t.rows[i].createdAt < t.rows[j].createdAt)
    && (forall i :: 0 <= i < |t.rows| && t.rows[i].fingerprint.Some? ==> Live(t.rows[i]) && FlagRight(t, i))
    && (forall m :: m in t.matches ==> m.extraction < |t.rows|)
  }

  // no dismissing and no reprocessing, and transactions start later than every row so far
  predicate InOrder(s: World, step: Step) {
    && !step.Dismiss? && !step.Reprocess?
    && (step.Handle? ==> forall i :: 0 <= i < |s.t.rows| ==> s.t.rows[i].createdAt < step.flight.at)
  }

  // rows that keep their class keep their first row
  lemma FirstKept(a: seq<Extraction>, b: seq<Extraction>, i: nat)
    requires i < |a| <= |b| && a[i].fingerprint.Some?
    requires forall k :: 0 <= k < |a| ==> b[k].fingerprint == a[k].fingerprint && b[k].user == a[k].user
    ensures First(b, i) == First(a, i)
  {
    var j, k := First(a, i), First(b, i);
    assert SameClass(b[j], b[i]) && SameClass(a[k], a[i]);
  }

  lemma DecisionOrdered(t: Tables, i: nat, row: Extraction)
    requires OriginalsFirst(t) && i < |t.rows| && Decides(t.rows[i], row) && row.status == Confirmed
    ensures OriginalsFirst(t.(rows := t.rows[i := row]))
  {
    var u := t.(rows := t.rows[i := row]);
    forall j | 0 <= j < |u.rows| && u.rows[j].fingerprint.Some? ensures Live(u.rows[j]) && FlagRight(u, j) {
      assert FlagRight(t, j);
      FirstKept(t.rows, u.rows, j);
    }
  }

  lemma ConfirmOrdered(t: Tables, i: nat, text: Option<string>)
    requires OriginalsFirst(t)
    ensures OriginalsFirst(Review.Confirm(t, i, text).0)
  {
    DecisionIs(t, i, text);
    var u := Review.Confirm(t, i, text).0;
    if u != t {
      DecisionOrdered(t, i, u.rows[i]);
    }
  }

  // the oldest live row of the class is its first row
  lemma OldestIsFirst(t: Tables, rows: seq<Extraction>, pick: Option<nat>)
    requires OriginalsFirst(t) && |rows| == |t.rows| + 1 && rows[..|t.rows|] == t.rows
    requires rows[|t.rows|].fingerprint.Some? && Oldest(rows, |t.rows|, pick)
    ensures First(rows, |t.rows|) == match pick case None => |t.rows| case Some(j) => j
  {
    var n := |t.rows|;
    var j := First(rows, n);
    if j < n {
      assert rows[j] == t.rows[j];
      assert Candidate(rows, n, j);
      assert pick.Some? && rows[pick.value] == t.rows[pick.value];
    } else {
      assert forall k :: 0 <= k < n ==> !Candidate(rows, n, k);
    }
  }

  // a flag on the new row does not change what the candidate query answers
  lemma OldestDespiteFlag(rows: seq<Extraction>, flagged: seq<Extraction>, n: nat, pick: Option<nat>)
    requires n < |rows| == |flagged| && flagged == rows[n := rows[n].(flagged := flagged[n].flagged)]
             && Oldest(rows, n, pick)
    ensures Oldest(flagged, n, pick)
  {
    assert forall j :: 0 <= j < |rows| ==> (Candidate(flagged, n, j) <==> Candidate(rows, n, j));
  }

  lemma NewRowPicked(t: Tables, m: Message, at: int, r: Reading, pick: Option<nat>)
    requires m.alias in t.aliases && Ingest.PickFits(t, m, at, Run(r), pick) && Financial(Run(r))
    ensures var u := Accept(t, m, at, Run(r), pick); var n := |t.rows|;
            |u.rows| == n + 1 && (Checked(u.rows[n]) ==> Oldest(u.rows, n, pick))
  {
    AcceptWrites(t, m, at, Run(r), pick);
    NewRowSound(t, m, at, r, pick);
    var u := Accept(t, m, at, Run(r), pick);
    var rows := RowsWith(WithMail(t, m, at), |t.emails|, t.aliases[m.alias].user, Run(r), at);
    assert u.rows == rows[|t.rows| := rows[|t.rows|].(flagged := u.rows[|t.rows|].flagged)];
    if Checked(u.rows[|t.rows|]) {
      OldestDespiteFlag(rows, u.rows, |t.rows|, pick);
    }
  }

  lemma AcceptOrdered(t: Tables, m: Message, at: int, r: Reading, pick: Option<nat>)
    requires m.alias in t.aliases && Ingest.PickFits(t, m, at, Run(r), pick)
    requires OriginalsFirst(t) && forall i :: 0 <= i < |t.rows| ==> t.rows[i].createdAt < at
    ensures OriginalsFirst(Accept(t, m, at, Run(r), pick))
  {
    AcceptWrites(t, m, at, Run(r), pick);
    var u := Accept(t, m, at, Run(r), pick);
    if Financial(Run(r)) {
      NewRowSound(t, m, at, r, pick);
      NewRowPicked(t, m, at, r, pick);
      NewRowOrdered(t, u, pick);
    } else {
      OthersOrdered(t, u);
    }
  }

  lemma NewRowOrdered(t: Tables, u: Tables, pick: Option<nat>)
    requires OriginalsFirst(t) && |u.rows| == |t.rows| + 1 && u.rows[..|t.rows|] == t.rows
    requires forall i :: 0 <= i < |t.rows| ==> t.rows[i].createdAt < u.rows[|t.rows|].createdAt
    requires RowSound(u.rows[|t.rows|]) && !Decided(u.rows[|t.rows|])
    requires Checked(u.rows[|t.rows|]) ==> Oldest(u.rows, |t.rows|, pick)
    requires if Checked(u.rows[|t.rows|]) && pick.Some?
             then u.rows[|t.rows|].flagged == 1 && u.matches == t.matches + [Match(|t.rows|, pick.value)]
             else u.rows[|t.rows|].flagged == 0 && u.matches == t.matches
    ensures OriginalsFirst(u)
  {
    forall i | 0 <= i < |u.rows| && u.rows[i].fingerprint.Some? ensures Live(u.rows[i]) && FlagRight(u, i) {
      if i < |t.rows| {
        OldFlagRight(t, u, i);
      } else {
        NewFlagRight(t, u, pick);
      }
    }
  }

  // match rows of a later row do not count for an earlier one
  lemma OldFlagRight(t: Tables, u: Tables, i: nat)
    requires OriginalsFirst(t) && i < |t.rows| <= |u.rows| && u.rows[..|t.rows|] == t.rows
             && t.rows[i].fingerprint.Some?
    requires u.matches == t.matches || exists m :: u.matches == t.matches + [m] && m.extraction != i
    ensures Live(u.rows[i]) && FlagRight(u, i)
  {
    assert FlagRight(t, i) && u.rows[i] == t.rows[i];
    FirstKept(t.rows, u.rows, i);
    if u.matches != t.matches {
      var m :| u.matches == t.matches + [m] && m.extraction != i;
      MatchesOfAppend(t.matches, m, i);
    }
  }

  lemma NewFlagRight(t: Tables, u: Tables, pick: Option<nat>)
    requires OriginalsFirst(t) && |u.rows| == |t.rows| + 1 && u.rows[..|t.rows|] == t.rows
    requires Checked(u.rows[|t.rows|]) && Oldest(u.rows, |t.rows|, pick)
    requires if pick.Some? then u.rows[|t.rows|].flagged == 1 && u.matches == t.matches + [Match(|t.rows|, pick.value)]
             else u.rows[|t.rows|].flagged == 0 && u.matches == t.matches
    ensures FlagRight(u, |t.rows|)
  {
    NoMatches(t.matches, |t.rows|);
    OldestIsFirst(t, u.rows, pick);
    if pick.Some? {
      MatchesOfAppend(t.matches, Match(|t.rows|, pick.value), |t.rows|);
    }
  }

  lemma OrderedStep(p: Policy, s: World, step: Step)
    requires Enabled(p, s, step) && InOrder(s, step) && OriginalsFirst(s.t)
    ensures OriginalsFirst(Next(p, s, step).t)
  {
    if step.Handle? {
      DeliveryOrdered(p, s, step);
    } else if step.Confirm? {
      ConfirmOrdered(s.t, step.row, step.category);
    } else {
      OtherStepsUnrelated(p, s, step);
      OthersOrdered(s.t, Next(p, s, step).t);
    }
  }

  lemma OthersOrdered(t: Tables, u: Tables)
    requires OriginalsFirst(t) && u.rows == t.rows && u.matches == t.matches
    ensures OriginalsFirst(u)
  {
    forall i | 0 <= i < |u.rows| && u.rows[i].fingerprint.Some? ensures Live(u.rows[i]) && FlagRight(u, i) {
      assert FlagRight(t, i);
    }
  }

  lemma DeliveryOrdered(p: Policy, s: World, step: Step)
    requires step.Handle? && Enabled(p, s, step) && InOrder(s, step) && OriginalsFirst(s.t)
    ensures OriginalsFirst(Next(p, s, step).t)
  {
    HandleStep(p, s, step);
    var m, at := s.sent[step.flight.key], step.flight.at;
    if Missed(p, s, Next(p, s, step), m, at) {
      OthersOrdered(s.t, RecordMissing(s.t, m, at));
    } else if Stored(p, s, Next(p, s, step), m, step) {
      AcceptOrdered(s.t, m, at, step.reading, step.pick);
    }
  }

  predicate OrderedRun(p: Policy, s: World, steps: seq<Step>)
    decreases |steps|
  {
    steps == [] ||
    (Enabled(p, s, steps[0]) && InOrder(s, steps[0]) && OrderedRun(p, Next(p, s, steps[0]), steps[1..]))
  }

  /** In every run that ingests and confirms in order, every class of equal
      fingerprints of a user has exactly its first row unflagged, and all its other
      rows point at that first row. */
  lemma {:induction false} FirstRowIsOriginal(p: Policy, s: World, steps: seq<Step>)
    requires OrderedRun(p, s, steps) && OriginalsFirst(s.t)
    ensures Valid(p, s, steps) && OriginalsFirst(End(p, s, steps).t)
    decreases |steps|
  {
    if steps == [] {
    } else {
      OrderedStep(p, s, steps[0]);
      FirstRowIsOriginal(p, Next(p, s, steps[0]), steps[1..]);
    }
  }
}
