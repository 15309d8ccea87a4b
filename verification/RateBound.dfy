/** The per-alias rate limit as a bound on every window of time. */
module RateBound {
  import opened Common
  import opened Schema
  import opened Ingest
  import opened World
  import opened Frames

  function InWindow(emails: seq<Email>, alias: string, lo: int, hi: int): set<nat> {
    set i: nat | i < |emails| && emails[i].alias == alias && lo <= emails[i].createdAt <= hi
  }

  // rows are stamped when their transaction began, at most `lag` before the check:
  // every closed window of length `window - lag` holds at most `limit` of them
  ghost predicate RateBounded(p: Policy, emails: seq<Email>) {
    p.limit > 0 ==>
      forall a, lo, hi :: hi - lo <= p.window - p.lag ==> |InWindow(emails, a, lo, hi)| <= p.limit
  }

  lemma WindowOfKept(a: seq<Email>, b: seq<Email>, nulled: set<nat>, alias: string, lo: int, hi: int)
    requires MailsKept(a, b, nulled)
    ensures InWindow(b, alias, lo, hi) == InWindow(a, alias, lo, hi)
  {
    assert forall i :: 0 <= i < |a| ==> SameMail(a[i], b[i], i in nulled);
  }

  lemma KeptBounded(p: Policy, a: seq<Email>, b: seq<Email>, nulled: set<nat>)
    requires MailsKept(a, b, nulled) && RateBounded(p, a)
    ensures RateBounded(p, b)
  {
    forall x, lo, hi ensures InWindow(b, x, lo, hi) == InWindow(a, x, lo, hi) {
      WindowOfKept(a, b, nulled, x, lo, hi);
    }
  }

  lemma ArrivalBounded(p: Policy, emails: seq<Email>, mail: Email, now: int)
    requires RateBounded(p, emails) && now - mail.createdAt <= p.lag
    requires !OverLimit(p, emails, mail.alias, now)
    ensures RateBounded(p, emails + [mail])
  {
    var n := |emails|;
    forall a, lo, hi | p.limit > 0 && hi - lo <= p.window - p.lag
      ensures |InWindow(emails + [mail], a, lo, hi)| <= p.limit
    {
      var before, after := InWindow(emails, a, lo, hi), InWindow(emails + [mail], a, lo, hi);
      if mail.alias == a && lo <= mail.createdAt <= hi {
        assert after == before + {n};
        SubsetSize(before, Recent(emails, a, now - p.window));
      } else {
        assert after == before;
      }
    }
  }

  lemma RateStep(p: Policy, s: World, step: Step)
    requires Enabled(p, s, step) && RowsHaveMails(s.t) && RateBounded(p, s.t.emails)
    ensures RateBounded(p, Next(p, s, step).t.emails)
  {
    if step.Handle? {
      DeliveryStep(p, s, step);
      DeliveryBounded(p, s, Next(p, s, step), step.flight);
    } else {
      OtherSteps(p, s, step);
      KeptBounded(p, s.t.emails, Next(p, s, step).t.emails, NulledBy(step));
    }
  }

  lemma DeliveryBounded(p: Policy, s: World, s': World, f: Flight)
    requires f.key in s.sent && DeliveryOf(p, s, s', f) && s.clock - f.at <= p.lag
    requires RateBounded(p, s.t.emails)
    ensures RateBounded(p, s'.t.emails)
  {
    var n := |s.t.emails|;
    if s'.t.emails != s.t.emails {
      assert s'.t.emails == s.t.emails + [s'.t.emails[n]];
      ArrivalBounded(p, s.t.emails, s'.t.emails[n], s.clock);
    }
  }
}
