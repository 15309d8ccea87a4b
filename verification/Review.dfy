/** Extraction rows: persisting a result, flagging duplicates, and the review
    decisions, as functions on the tables. */
module Review {
  import opened Common
  import opened Schema
  import opened Pipeline
  import Money

  // ---- mapping a result onto a row ---------------------------------------------

  predicate Decided(row: Extraction) {
    row.status == Confirmed || row.status == Dismissed
  }

  predicate OutOfRange(res: Result) {
    res.fields.amount.Some? && !Money.Admitted(res.fields.amount.value)
  }

  // extraction_service.apply_result_fields
  function ApplyResult(row: Extraction, res: Result): Extraction {
    if OutOfRange(res) then
      row.(fields := res.fields.(amount := None), status := ExtractionFailed, fingerprint := None)
    else
      row.(fields := res.fields,
           status := if res.route == ToReview then Pending else ExtractionFailed,
           fingerprint := if res.fields.amount.Some? then res.fingerprint else None)
  }

  function MailStatusOf(route: Route): MailStatus {
    match route
    case ToReview => Processed
    case ToFailed => Failed
    case NotFinancial => NonFinancial
    case VerificationMail => Verification
  }

  // ---- duplicates -----------------------------------------------------------------

  predicate Live(row: Extraction) {
    row.status == Pending || row.status == Confirmed
  }

  // row j can stand as the original of row i
  predicate Candidate(rows: seq<Extraction>, i: nat, j: nat)
    requires i < |rows|
  {
    j < |rows| && j != i && Live(rows[j]) &&
    rows[j].fingerprint == rows[i].fingerprint && rows[j].user == rows[i].user
  }

  lemma CandidateIs(rows: seq<Extraction>, i: nat)
    requires i < |rows|
    ensures forall j :: 0 <= j < |rows| ==>
      (Candidate(rows, i, j) <==>
         j != i && (rows[j].status == Pending || rows[j].status == Confirmed) &&
         rows[j].fingerprint == rows[i].fingerprint && rows[j].user == rows[i].user)
  {
  }

  predicate Checked(row: Extraction) {
    row.fingerprint.Some? && row.status == Pending
  }

  // an answer of "the other live row with this fingerprint, oldest first, limit 1"
  predicate Oldest(rows: seq<Extraction>, i: nat, pick: Option<nat>)
    requires i < |rows|
  {
    match pick
    case None => forall j :: 0 <= j < |rows| ==> !Candidate(rows, i, j)
    case Some(j) =>
      Candidate(rows, i, j) &&
      forall k :: 0 <= k < |rows| && Candidate(rows, i, k) ==> rows[j].createdAt <= rows[k].createdAt
  }

  predicate PickFits(rows: seq<Extraction>, i: nat, pick: Option<nat>)
    requires i < |rows|
  {
    Checked(rows[i]) ==> Oldest(rows, i, pick)
  }

  // duplicate_service.check_and_flag
  function Flag(t: Tables, i: nat, pick: Option<nat>): (t': Tables)
    requires i < |t.rows|
  {
    if Checked(t.rows[i]) && pick.Some? then
      t.(rows := t.rows[i := t.rows[i].(flagged := 1)], matches := t.matches + [Match(i, pick.value)])
    else t
  }

  function MatchesOf(matches: seq<Match>, i: nat): seq<Match> {
    if matches == [] then []
    else
      var n := |matches| - 1;
      MatchesOf(matches[..n], i) + if matches[n].extraction == i then [matches[n]] else []
  }

  function Without(matches: seq<Match>, i: nat): seq<Match> {
    if matches == [] then []
    else
      var n := |matches| - 1;
      Without(matches[..n], i) + if matches[n].extraction == i then [] else [matches[n]]
  }

  // ---- persisting -------------------------------------------------------------------

  function NewRow(email: nat, user: string, alias: string, at: int): Extraction {
    Extraction(email, user, alias, at, NO_FIELDS, None, ExtractionFailed, 0, None, None)
  }

  function AmountText(row: Extraction): Option<string> {
    if row.fields.amount.Some? then Some(Money.Canonical(row.fields.amount.value)) else None
  }

  // the event announcing row i, with the row as the receiver will see it
  function Announcement(rows: seq<Extraction>, i: nat): Kind
    requires i < |rows|
  {
    ExtractionEvent(i, rows[i].status == Pending, rows[i].status, AmountText(rows[i]), rows[i].flagged)
  }

  // the rows after persist_result added its own, before the duplicate check
  function RowsWith(t: Tables, e: nat, user: string, res: Result, at: int): seq<Extraction>
    requires e < |t.emails|
  {
    t.rows + [ApplyResult(NewRow(e, user, t.emails[e].alias, at), res)]
  }

  predicate Financial(res: Result) {
    res.route == ToReview || res.route == ToFailed
  }

  // extraction_service.persist_result for email e
  function Persist(t: Tables, e: nat, user: string, res: Result, apiKey: Option<nat>,
                   at: int, pick: Option<nat>): Tables
    requires e < |t.emails|
  {
    var mail := t.emails[e];
    match res.route
    case NotFinancial => t.(emails := t.emails[e := mail.(status := NonFinancial)])
    case VerificationMail =>
      t.(emails := t.emails[e := mail.(status := Verification)],
         outbox := t.outbox + [NewEvent(apiKey, mail.alias, ForwardingCode(e), at)])
    case _ =>
      var rows := RowsWith(t, e, user, res, at);
      var i := |t.rows|;
      var status := if rows[i].status == Pending then Processed else Failed;
      var f := Flag(t.(emails := t.emails[e := mail.(status := status)], rows := rows), i, pick);
      f.(outbox := f.outbox + [NewEvent(apiKey, mail.alias, Announcement(f.rows, i), at)])
  }

  // ---- decisions --------------------------------------------------------------------

  datatype Reply = Done | Already | NotFound | Conflict

  // confirm_extraction: accepts a failed row too
  function Confirm(t: Tables, i: nat, category: Option<string>): (Tables, Reply) {
    if i >= |t.rows| then (t, NotFound)
    else match t.rows[i].status
      case Confirmed => (t, Already)
      case Dismissed => (t, Conflict)
      case _ => (t.(rows := t.rows[i := t.rows[i].(status := Confirmed, category := category)]), Done)
  }

  function Dismiss(t: Tables, i: nat, reason: Option<string>): (Tables, Reply) {
    if i >= |t.rows| then (t, NotFound)
    else match t.rows[i].status
      case Dismissed => (t, Already)
      case Confirmed => (t, Conflict)
      case _ => (t.(rows := t.rows[i := t.rows[i].(status := Dismissed, reason := reason)]), Done)
  }

  /** The first decision stands: any undecided row, failed or not, can be confirmed and can be
      dismissed; that records what it was given in that row alone, and every later decision
      or reprocessing is turned away and changes nothing. */
  lemma FirstDecisionStands(t: Tables, i: nat, category: Option<string>, reason: Option<string>,
                            store: set<string>, res: Result, pick: Option<nat>)
    ensures var (u, reply) := Confirm(t, i, category);
            && (reply == Done <==> i < |t.rows| && t.rows[i].status in {Pending, ExtractionFailed})
            && (reply == Already <==> i < |t.rows| && t.rows[i].status == Confirmed)
            && (reply == Conflict <==> i < |t.rows| && t.rows[i].status == Dismissed)
            && (reply != Done ==> u == t)
    ensures var (u, reply) := Dismiss(t, i, reason);
            && (reply == Done <==> i < |t.rows| && t.rows[i].status in {Pending, ExtractionFailed})
            && (reply == Already <==> i < |t.rows| && t.rows[i].status == Dismissed)
            && (reply == Conflict <==> i < |t.rows| && t.rows[i].status == Confirmed)
            && (reply != Done ==> u == t)
    ensures var (u, reply) := Confirm(t, i, category);
            reply == Done ==>
              && |u.rows| == |t.rows| && u == t.(rows := t.rows[i := u.rows[i]])
              && u.rows[i] == t.rows[i].(status := Confirmed, category := category)
              && (forall other :: Confirm(u, i, other) == (u, Already)) && Dismiss(u, i, reason) == (u, Conflict)
              && Reprocess(u, store, i, res, pick) == (u, Conflict)
    ensures var (u, reply) := Dismiss(t, i, reason);
            reply == Done ==>
              && |u.rows| == |t.rows| && u == t.(rows := t.rows[i := u.rows[i]])
              && u.rows[i] == t.rows[i].(status := Dismissed, reason := reason)
              && (forall other :: Dismiss(u, i, other) == (u, Already)) && Confirm(u, i, category) == (u, Conflict)
              && Reprocess(u, store, i, res, pick) == (u, Conflict)
  {
  }

  // the row as reprocessing leaves it, before the duplicate check
  function Redone(row: Extraction, res: Result): Extraction {
    ApplyResult(row, res).(flagged := 0)
  }

  predicate Reprocessable(t: Tables, store: set<string>, i: nat, res: Result) {
    && i < |t.rows| && !Decided(t.rows[i])
    && t.rows[i].email < |t.emails|
    && Truthy(t.emails[t.rows[i].email].key).Some?
    && t.emails[t.rows[i].email].key.value in store
    && Financial(res)
  }

  // reprocess_extraction
  function Reprocess(t: Tables, store: set<string>, i: nat, res: Result, pick: Option<nat>): (Tables, Reply) {
    if i >= |t.rows| then (t, NotFound)
    else if !Reprocessable(t, store, i, res) then (t, Conflict)
    else
      var row := Redone(t.rows[i], res);
      var e := row.email;
      var status := if row.status == Pending then Processed else Failed;
      (Flag(t.(rows := t.rows[i := row], matches := Without(t.matches, i),
               emails := t.emails[e := t.emails[e].(status := status)]), i, pick), Done)
  }

  // ---- what holds of one row ------------------------------------------------------------

  // the facts a row can be relied on for, whatever happened to it
  predicate RowSound(row: Extraction) {
    && (row.fields.amount.Some? ==> Money.Admitted(row.fields.amount.value))
    && (row.status == Pending ==> row.fields.amount.Some?)
    && (row.status == ExtractionFailed ==> row.fields.amount.None? && row.fingerprint.None?)
    && (row.fingerprint.Some? ==> row.fingerprint == FingerprintOf(row.fields))
  }

  lemma ApplySound(row: Extraction, r: Reading)
    requires Financial(Run(r))
    ensures RowSound(ApplyResult(row, Run(r)))
    ensures !Decided(ApplyResult(row, Run(r)))
    ensures row.(fields := ApplyResult(row, Run(r)).fields, status := ApplyResult(row, Run(r)).status,
                 fingerprint := ApplyResult(row, Run(r)).fingerprint) == ApplyResult(row, Run(r))
  {
  }

  /** A fingerprint exists only on rows with an amount, a date and a merchant. */
  lemma FingerprintNeedsFields(row: Extraction)
    requires RowSound(row) && row.fingerprint.Some?
    ensures row.fields.amount.Some? && row.fields.date.Some? && Truthy(row.fields.merchant).Some?
  {
  }

  /** A failed row carries a confidence badge exactly when its amount was out of range: the
      status is degraded, the band stays. */
  lemma DegradedKeepsBand(row: Extraction, r: Reading)
    requires Financial(Run(r))
    ensures var u := ApplyResult(row, Run(r));
            u.status == ExtractionFailed && u.fields.band != NotApplicable <==> OutOfRange(Run(r))
  {
  }

  /** Confirming a failed row is allowed; a confirmed row lacks an amount exactly then. */
  lemma ConfirmedWithoutAmount(t: Tables, i: nat, category: Option<string>)
    requires i < |t.rows| && RowSound(t.rows[i]) && !Decided(t.rows[i])
    ensures var (t', reply) := Confirm(t, i, category);
            && reply == Done && t'.rows[i].status == Confirmed
            && (t'.rows[i].fields.amount.None? <==> t.rows[i].status == ExtractionFailed)
  {
  }

  // ---- match rows --------------------------------------------------------------------------

  lemma MatchesOfAppend(matches: seq<Match>, m: Match, i: nat)
    ensures MatchesOf(matches + [m], i) == MatchesOf(matches, i) + if m.extraction == i then [m] else []
  {
    assert (matches + [m])[..|matches|] == matches;
  }

  lemma {:induction false} MatchesOfWithout(matches: seq<Match>, i: nat, j: nat)
    ensures MatchesOf(Without(matches, i), j) == if i == j then [] else MatchesOf(matches, j)
    ensures forall m :: m in Without(matches, i) <==> m in matches && m.extraction != i
  {
    if matches == [] {
    } else {
      var n := |matches| - 1;
      var front, last := matches[..n], matches[n];
      assert matches == front + [last];
      MatchesOfWithout(front, i, j);
      MatchesOfAppend(front, last, j);
      var kept := Without(front, i);
      if last.extraction == i {
        assert Without(matches, i) == kept;
      } else {
        assert Without(matches, i) == kept + [last];
        MatchesOfAppend(kept, last, j);
      }
    }
  }

  // the flag of a row and its match rows tell the same story
  predicate Paired(t: Tables) {
    && (forall i :: 0 <= i < |t.rows| ==> t.rows[i].flagged <= 1 && |MatchesOf(t.matches, i)| == t.rows[i].flagged)
    && (forall m :: m in t.matches ==>
          m.extraction < |t.rows| && m.candidate < |t.rows| && m.candidate != m.extraction &&
          t.rows[m.candidate].user == t.rows[m.extraction].user)
  }

  lemma {:induction false} NoMatches(matches: seq<Match>, i: nat)
    requires forall m :: m in matches ==> m.extraction != i
    ensures MatchesOf(matches, i) == []
  {
    if matches == [] {
    } else {
      NoMatches(matches[..|matches| - 1], i);
    }
  }

  lemma FlagPaired(t: Tables, i: nat, pick: Option<nat>)
    requires i < |t.rows| && Paired(t) && t.rows[i].flagged == 0 && PickFits(t.rows, i, pick)
    ensures Paired(Flag(t, i, pick))
  {
    if Checked(t.rows[i]) && pick.Some? {
      var m := Match(i, pick.value);
      forall j | 0 <= j < |t.rows| ensures
        |MatchesOf(t.matches + [m], j)| == |MatchesOf(t.matches, j)| + if j == i then 1 else 0
      {
        MatchesOfAppend(t.matches, m, j);
      }
    }
  }

  /** Flagging marks a duplicate and never changes a status, a decision or a field. */
  lemma FlagOnlyFlags(t: Tables, i: nat, pick: Option<nat>)
    requires i < |t.rows| && PickFits(t.rows, i, pick)
    ensures var f := Flag(t, i, pick);
            f == t.(rows := f.rows, matches := f.matches) && |f.rows| == |t.rows| &&
            (forall j :: 0 <= j < |t.rows| ==> f.rows[j].(flagged := 0) == t.rows[j].(flagged := 0)) &&
            (forall j :: 0 <= j < |t.rows| && j != i ==> f.rows[j] == t.rows[j]) &&
            (Checked(t.rows[i]) && (exists j :: 0 <= j < |t.rows| && Candidate(t.rows, i, j)) ==>
              f.rows[i].flagged == 1)
  {
  }
}
