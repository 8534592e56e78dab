/** Building runs step by step. */
module Runs {
  import opened Options
  import opened Protocol

  lemma {:induction false} RunAppend(cfg: Config, r: State, steps: seq<Step>, s: State, more: seq<Step>)
    requires After(cfg, r, steps) == Some(s)
    ensures After(cfg, r, steps + more) == After(cfg, s, more)
  {
    if more == [] {
      assert steps + more == steps;
    } else {
      var n := |more| - 1;
      assert (steps + more)[..|steps + more| - 1] == steps + more[..n];
      RunAppend(cfg, r, steps, s, more[..n]);
    }
  }

  ghost predicate Leads(cfg: Config, r: State, steps: seq<Step>, s: State) {
    After(cfg, r, steps) == Some(s)
  }

  lemma Then(cfg: Config, r: State, steps: seq<Step>, s: State, step: Step) returns (steps': seq<Step>, s': State)
    requires Leads(cfg, r, steps, s) && Enabled(cfg, s, step)
    ensures Leads(cfg, r, steps', s') && s' == Next(cfg, s, step)
  {
    steps', s' := steps + [step], Next(cfg, s, step);
    assert steps'[..|steps'| - 1] == steps;
  }

  ghost predicate Reached(cfg: Config, steps: seq<Step>, s: State) {
    After(cfg, INIT, steps) == Some(s)
  }

  lemma Do(cfg: Config, steps: seq<Step>, s: State, step: Step) returns (steps': seq<Step>, s': State)
    requires Reached(cfg, steps, s) && Enabled(cfg, s, step)
    ensures Reached(cfg, steps', s') && s' == Next(cfg, s, step)
  {
    steps', s' := Then(cfg, INIT, steps, s, step);
  }
}
