/** Learned merchant rules: what category feedback does to the rule table, and that the
    table is a function of the feedback log. `upper` stands for the upper-casing. */
module Feedback {
  import opened Common

  const RULE_THRESHOLD: nat := 3

  datatype Entry = Entry(merchant: string, category: string)

  // a rule with match type "exact"
  datatype Rule = Rule(pattern: string, name: string, category: string, count: nat)

  function Count(log: seq<Entry>, e: Entry): nat {
    if log == [] then 0 else Count(log[..|log| - 1], e) + if log[|log| - 1] == e then 1 else 0
  }

  // how often the pair stands in the log
  lemma {:induction false} CountIsMultiplicity(log: seq<Entry>, e: Entry)
    ensures Count(log, e) == multiset(log)[e]
  {
    if log == [] {
    } else {
      var n := |log| - 1;
      CountIsMultiplicity(log[..n], e);
      assert log == log[..n] + [log[n]];
    }
  }

  function Find(rules: seq<Rule>, pattern: string): (r: Option<nat>)
    ensures r.Some? ==> r.value < |rules| && rules[r.value].pattern == pattern
    ensures r.None? ==> forall j :: 0 <= j < |rules| ==> rules[j].pattern != pattern
  {
    if rules == [] then None
    else if rules[|rules| - 1].pattern == pattern then Some(|rules| - 1)
    else Find(rules[..|rules| - 1], pattern)
  }

  // the table after an entry that brings its pair to `count` confirmations
  function Learn(rules: seq<Rule>, pattern: string, e: Entry, count: nat): seq<Rule> {
    if count < RULE_THRESHOLD then rules
    else match Find(rules, pattern)
      case None => rules + [Rule(pattern, e.merchant, e.category, count)]
      case Some(j) => rules[j := rules[j].(category := e.category, count := count)]
  }

  // the table after a whole log
  function RulesOf(log: seq<Entry>, upper: string -> string): seq<Rule> {
    if log == [] then []
    else
      var e := log[|log| - 1];
      Learn(RulesOf(log[..|log| - 1], upper), upper(e.merchant), e, Count(log, e))
  }

  // ---- what the table says about the log -------------------------------------------------

  // how often the pair of entry i had been confirmed when it came
  function Running(log: seq<Entry>, i: nat): nat
    requires i < |log|
  {
    Count(log[..i + 1], log[i])
  }

  // entry i wrote the rule of that pattern
  predicate Taught(log: seq<Entry>, upper: string -> string, pattern: string, i: nat) {
    i < |log| && upper(log[i].merchant) == pattern && Running(log, i) >= RULE_THRESHOLD
  }

  // entries `first` and `last` are the first and the last to write the rule of the pattern
  predicate Span(log: seq<Entry>, upper: string -> string, pattern: string, first: nat, last: nat) {
    && Taught(log, upper, pattern, first) && Taught(log, upper, pattern, last)
    && forall i :: 0 <= i < |log| && Taught(log, upper, pattern, i) ==> first <= i <= last
  }

  // named after the first of them, category and count from the last
  predicate RuleFits(log: seq<Entry>, upper: string -> string, r: Rule) {
    exists first, last ::
      && 0 <= first <= last < |log| && Span(log, upper, r.pattern, first, last)
      && r.name == log[first].merchant && r.category == log[last].category && r.count == Running(log, last)
  }

  predicate OnePerPattern(rules: seq<Rule>) {
    forall j, k :: 0 <= j < k < |rules| ==> rules[j].pattern != rules[k].pattern
  }

  predicate Reflects(log: seq<Entry>, upper: string -> string, rules: seq<Rule>) {
    && OnePerPattern(rules)
    && (forall j :: 0 <= j < |rules| ==> RuleFits(log, upper, rules[j]))
    && (forall i :: 0 <= i < |log| && Running(log, i) >= RULE_THRESHOLD ==>
          Find(rules, upper(log[i].merchant)).Some?)
  }

  lemma TaughtBefore(log: seq<Entry>, e: Entry, upper: string -> string, pattern: string, i: nat)
    requires i < |log|
    ensures Running(log + [e], i) == Running(log, i)
    ensures Taught(log + [e], upper, pattern, i) <==> Taught(log, upper, pattern, i)
  {
    assert (log + [e])[..i + 1] == log[..i + 1];
  }

  lemma RunningNow(log: seq<Entry>, e: Entry)
    ensures Running(log + [e], |log|) == Count(log + [e], e)
  {
    assert (log + [e])[..|log| + 1] == log + [e];
  }

  lemma SpanGrows(log: seq<Entry>, e: Entry, upper: string -> string, pattern: string, first: nat, last: nat)
    requires 0 <= first <= last < |log| && Span(log, upper, pattern, first, last)
    ensures Span(log + [e], upper, pattern, first, if Taught(log + [e], upper, pattern, |log|) then |log| else last)
  {
    forall i | 0 <= i < |log|
      ensures Taught(log + [e], upper, pattern, i) <==> Taught(log, upper, pattern, i)
    {
      TaughtBefore(log, e, upper, pattern, i);
    }
  }

  // a rule the new entry does not write
  lemma RuleKept(log: seq<Entry>, e: Entry, upper: string -> string, r: Rule)
    requires RuleFits(log, upper, r) && (upper(e.merchant) != r.pattern || Count(log + [e], e) < RULE_THRESHOLD)
    ensures RuleFits(log + [e], upper, r)
  {
    var first, last :| 0 <= first <= last < |log| && Span(log, upper, r.pattern, first, last)
      && r.name == log[first].merchant && r.category == log[last].category && r.count == Running(log, last);
    RunningNow(log, e);
    assert !Taught(log + [e], upper, r.pattern, |log|);
    SpanGrows(log, e, upper, r.pattern, first, last);
    TaughtBefore(log, e, upper, r.pattern, last);
    assert (log + [e])[first] == log[first] && (log + [e])[last] == log[last];
  }

  // a rule it updates
  lemma RuleUpdated(log: seq<Entry>, e: Entry, upper: string -> string, r: Rule)
    requires RuleFits(log, upper, r) && upper(e.merchant) == r.pattern && Count(log + [e], e) >= RULE_THRESHOLD
    ensures RuleFits(log + [e], upper, r.(category := e.category, count := Count(log + [e], e)))
  {
    var first, last :| 0 <= first <= last < |log| && Span(log, upper, r.pattern, first, last)
      && r.name == log[first].merchant && r.category == log[last].category && r.count == Running(log, last);
    RunningNow(log, e);
    assert Taught(log + [e], upper, r.pattern, |log|);
    SpanGrows(log, e, upper, r.pattern, first, last);
  }

  // a rule it creates
  lemma RuleCreated(log: seq<Entry>, e: Entry, upper: string -> string)
    requires Count(log + [e], e) >= RULE_THRESHOLD
    requires forall i :: 0 <= i < |log| ==> !Taught(log, upper, upper(e.merchant), i)
    ensures RuleFits(log + [e], upper, Rule(upper(e.merchant), e.merchant, e.category, Count(log + [e], e)))
  {
    RunningNow(log, e);
    forall i | 0 <= i < |log| ensures !Taught(log + [e], upper, upper(e.merchant), i) {
      TaughtBefore(log, e, upper, upper(e.merchant), i);
    }
    assert Span(log + [e], upper, upper(e.merchant), |log|, |log|);
  }

  lemma FindInLearned(rules: seq<Rule>, pattern: string, e: Entry, count: nat, other: string)
    requires Find(rules, other).Some? || (other == pattern && count >= RULE_THRESHOLD)
    ensures Find(Learn(rules, pattern, e, count), other).Some?
  {
    var after := Learn(rules, pattern, e, count);
    if Find(rules, other).Some? {
      assert after[Find(rules, other).value].pattern == other;
    } else {
      assert after[|rules|].pattern == other;
    }
  }

  lemma LearnDistinct(rules: seq<Rule>, pattern: string, e: Entry, count: nat)
    requires OnePerPattern(rules)
    ensures OnePerPattern(Learn(rules, pattern, e, count))
  {
  }

  lemma LearnFits(log: seq<Entry>, e: Entry, upper: string -> string, rules: seq<Rule>)
    requires Reflects(log, upper, rules)
    ensures var after := Learn(rules, upper(e.merchant), e, Count(log + [e], e));
            forall j :: 0 <= j < |after| ==> RuleFits(log + [e], upper, after[j])
  {
    var pattern, count := upper(e.merchant), Count(log + [e], e);
    var after := Learn(rules, pattern, e, count);
    forall j | 0 <= j < |after| ensures RuleFits(log + [e], upper, after[j]) {
      if j == |rules| {
        RuleCreated(log, e, upper);
      } else if rules[j].pattern == pattern && count >= RULE_THRESHOLD {
        assert Find(rules, pattern) == Some(j);
        RuleUpdated(log, e, upper, rules[j]);
      } else {
        RuleKept(log, e, upper, rules[j]);
      }
    }
  }

  lemma LearnReflects(log: seq<Entry>, e: Entry, upper: string -> string, rules: seq<Rule>)
    requires Reflects(log, upper, rules)
    ensures Reflects(log + [e], upper, Learn(rules, upper(e.merchant), e, Count(log + [e], e)))
  {
    var pattern, count := upper(e.merchant), Count(log + [e], e);
    LearnFits(log, e, upper, rules);
    LearnDistinct(rules, pattern, e, count);
    RunningNow(log, e);
    forall i | 0 <= i < |log + [e]| && Running(log + [e], i) >= RULE_THRESHOLD
      ensures Find(Learn(rules, pattern, e, count), upper((log + [e])[i].merchant)).Some?
    {
      if i < |log| {
        TaughtBefore(log, e, upper, pattern, i);
      }
      FindInLearned(rules, pattern, e, count, upper((log + [e])[i].merchant));
    }
  }

  /** Learned rules are a function of the log: at most one rule per pattern, named after
      the first entry that reached three confirmations for the pattern, with the category
      and the count of the latest that did. */
  lemma {:induction false} RulesReflectLog(log: seq<Entry>, upper: string -> string)
    ensures Reflects(log, upper, RulesOf(log, upper))
  {
    if log == [] {
    } else {
      var before, e := log[..|log| - 1], log[|log| - 1];
      RulesReflectLog(before, upper);
      LearnReflects(before, e, upper, RulesOf(before, upper));
      assert before + [e] == log;
    }
  }

  // the entry that brings a pair to its final count
  lemma {:induction false} LastOf(log: seq<Entry>, e: Entry) returns (i: nat)
    requires Count(log, e) > 0
    ensures i < |log| && log[i] == e && Running(log, i) == Count(log, e)
  {
    var n := |log| - 1;
    if log[n] == e {
      i := n;
      assert log[..n + 1] == log;
    } else {
      i := LastOf(log[..n], e);
      assert log[..n][..i + 1] == log[..i + 1];
    }
  }

  lemma {:induction false} CountGrows(log: seq<Entry>, i: nat, e: Entry)
    requires i <= |log|
    ensures Count(log[..i], e) <= Count(log, e)
  {
    if i == |log| {
      assert log[..i] == log;
    } else {
      CountGrows(log[..|log| - 1], i, e);
      assert log[..|log| - 1][..i] == log[..i];
    }
  }

  lemma RuleCounted(log: seq<Entry>, upper: string -> string, pattern: string)
    ensures Find(RulesOf(log, upper), pattern).Some? <==>
              exists i :: 0 <= i < |log| && upper(log[i].merchant) == pattern && Count(log, log[i]) >= RULE_THRESHOLD
  {
    var rules := RulesOf(log, upper);
    RulesReflectLog(log, upper);
    if Find(rules, pattern).Some? {
      assert RuleFits(log, upper, rules[Find(rules, pattern).value]);
      var i :| 0 <= i < |log| && Taught(log, upper, pattern, i);
      CountGrows(log, i + 1, log[i]);
    }
    if i :| 0 <= i < |log| && upper(log[i].merchant) == pattern && Count(log, log[i]) >= RULE_THRESHOLD {
      var last := LastOf(log, log[i]);
    }
  }

  /** A pattern has a rule exactly when some merchant and category with that upper-casing
      were logged three times. */
  lemma RuleExists(log: seq<Entry>, upper: string -> string, pattern: string)
    ensures Find(RulesOf(log, upper), pattern).Some? <==>
              exists i :: 0 <= i < |log| && upper(log[i].merchant) == pattern && multiset(log)[log[i]] >= 3
  {
    forall i | 0 <= i < |log| ensures Count(log, log[i]) == multiset(log)[log[i]] {
      CountIsMultiplicity(log, log[i]);
    }
    RuleCounted(log, upper, pattern);
  }

  // ---- the endpoint -----------------------------------------------------------------------

  class RuleBook {
    var log: seq<Entry>
    var rules: seq<Rule>

    predicate Valid(upper: string -> string)
      reads this
    {
      rules == RulesOf(log, upper)
    }

    constructor (upper: string -> string)
      ensures Valid(upper) && log == []
    {
      log, rules := [], [];
    }

    method CountEntries(e: Entry) returns (count: nat)
      ensures count == Count(log, e) == multiset(log)[e]
    {
      CountIsMultiplicity(log, e);
      count := 0;
      for i := 0 to |log|
        invariant count == Count(log[..i], e)
      {
        assert log[..i + 1][..i] == log[..i];
        if log[i] == e {
          count := count + 1;
        }
      }
      assert log[..|log|] == log;
    }

    // the reply: how often the pair is confirmed now, and whether this created its rule
    method CategoryFeedback(upper: string -> string, e: Entry) returns (confirmations: nat, created: bool)
      requires Valid(upper)
      modifies this
      ensures Valid(upper) && log == old(log) + [e]
      ensures confirmations == multiset(log)[e]
      ensures created <==> Find(old(rules), upper(e.merchant)).None? && Find(rules, upper(e.merchant)).Some?
      ensures forall j :: 0 <= j < |old(rules)| && old(rules)[j].pattern != upper(e.merchant) ==>
                rules[j] == old(rules)[j]
    {
      log := log + [e];
      assert log[..|log| - 1] == old(log);
      confirmations := CountEntries(e);
      created := false;
      if confirmations >= RULE_THRESHOLD {
        var pattern := upper(e.merchant);
        FindInLearned(rules, pattern, e, confirmations, pattern);
        match Find(rules, pattern) {
          case None =>
            rules := rules + [Rule(pattern, e.merchant, e.category, confirmations)];
            created := true;
          case Some(j) =>
            rules := rules[j := rules[j].(category := e.category, count := confirmations)];
        }
      }
    }
  }
}
