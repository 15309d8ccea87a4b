/** Putting runs together and taking them apart. */
module Runs {
  import opened Ingest
  import opened World

  lemma Extend(p: Policy, s: World, step: Step, rest: seq<Step>)
    requires Enabled(p, s, step) && Valid(p, Next(p, s, step), rest)
    ensures Valid(p, s, [step] + rest)
    ensures End(p, s, [step] + rest) == End(p, Next(p, s, step), rest)
  {
    assert ([step] + rest)[1..] == rest;
  }

  lemma {:induction false} Chain(p: Policy, s: World, first: seq<Step>, rest: seq<Step>)
    requires Valid(p, s, first) && Valid(p, End(p, s, first), rest)
    ensures Valid(p, s, first + rest)
    ensures End(p, s, first + rest) == End(p, End(p, s, first), rest)
    decreases |first|
  {
    if first == [] {
      assert first + rest == rest;
    } else {
      Chain(p, Next(p, s, first[0]), first[1..], rest);
      Extend(p, s, first[0], first[1..] + rest);
      assert first + rest == [first[0]] + (first[1..] + rest);
    }
  }

  lemma {:induction false} LastStep(p: Policy, s: World, steps: seq<Step>)
    requires steps != [] && Valid(p, s, steps)
    ensures var front, last := steps[..|steps| - 1], steps[|steps| - 1];
            && Valid(p, s, front) && Enabled(p, End(p, s, front), last)
            && End(p, s, steps) == Next(p, End(p, s, front), last)
    decreases |steps|
  {
    if |steps| == 1 {
      assert steps[1..] == [] && steps[..0] == [];
    } else {
      var rest := steps[1..];
      LastStep(p, Next(p, s, steps[0]), rest);
      assert steps[..|steps| - 1][1..] == rest[..|rest| - 1];
    }
  }
}
