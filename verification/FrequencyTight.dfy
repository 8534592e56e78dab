/** The bound of module Frequency is reached: for every cap and window a run in which one user is shown one ad
    2 * cap - 1 times within one window. */
module FrequencyTight {
  import opened Options
  import opened Redis
  import opened Protocol
  import opened Runs
  import opened Frequency

  const USER: Id := "user"
  const AD: Id := "ad"

  /** The shortest window in whole seconds. */
  function Seconds(cfg: Config): (w: nat)
    ensures cfg.minWindow <= 1000 * w < cfg.minWindow + 1000
  {
    (cfg.minWindow + 999) / 1000
  }

  function Window(cfg: Config): nat {
    1000 * Seconds(cfg)
  }

  function Shown(cfg: Config): Cand {
    Cand(AD, "campaign", cfg.maxCap, Seconds(cfg))
  }

  /** The log of the ad's lives for the user, and the key as the last life left it, or no key. */
  ghost predicate Logged(s: State, log: seq<Life>, live: bool) {
    var k := FreqCount(USER, AD);
    && LogAt(s.hist.lives, (USER, AD)) == log
    && if live then log != [] && k in s.db && s.db[k] == Entry(Num(|log[|log| - 1].times|), Some(log[|log| - 1].until))
       else k !in s.db
  }

  /** One request that asks the frequency script and is let through. */
  lemma Show(cfg: Config, steps: seq<Step>, s: State, log: seq<Life>, live: bool)
    returns (steps': seq<Step>, s': State)
    requires Reached(cfg, steps, s) && Logged(s, log, live) && cfg.maxCap > 0 && cfg.minWindow > 0
    requires live ==> 0 < |log[|log| - 1].times| < cfg.maxCap
    ensures Reached(cfg, steps', s') && s'.now == s.now && Logged(s', Live(log, !live, s.now, Seconds(cfg)), true)
  {
    var i := |s.vasts|;
    steps', s' := Do(cfg, steps, s, Env(RequestAd(USER)));
    steps', s' := Do(cfg, steps', s', VastOf(i, Pick(Shown(cfg))));
    steps', s' := Consumes(cfg, steps', s', i, log, live);
  }

  lemma Consumes(cfg: Config, steps: seq<Step>, s: State, i: nat, log: seq<Life>, live: bool)
    returns (steps': seq<Step>, s': State)
    requires Reached(cfg, steps, s) && Logged(s, log, live) && cfg.maxCap > 0 && cfg.minWindow > 0
    requires live ==> 0 < |log[|log| - 1].times| < cfg.maxCap
    requires i < |s.vasts| && s.vasts[i] == Vast(USER, 1, FreqCall(Shown(cfg), false))
    ensures Reached(cfg, steps', s') && s'.now == s.now && Logged(s', Live(log, !live, s.now, Seconds(cfg)), true)
  {
    var k := FreqCount(USER, AD);
    steps', s' := Do(cfg, steps, s, VastOf(i, Consume(Ok)));
    FreqScriptExact(s.db, k, cfg.maxCap, Seconds(cfg), s.now);
    var (d, n) := FreqScript(s.db, k, cfg.maxCap, Seconds(cfg), s.now);
    ConsumedLog(s, s.vasts[i], Shown(cfg), true, d, n);
  }

  function Repeat(t: nat, k: nat): (times: seq<nat>)
    ensures |times| == k
  {
    if k == 0 then [] else Repeat(t, k - 1) + [t]
  }

  lemma {:induction false} RepeatWithin(times: seq<nat>, t: nat, k: nat, from: int, to: int)
    requires from <= t < to
    ensures Within(times + Repeat(t, k), from, to) == Within(times, from, to) + k
  {
    var all := times + Repeat(t, k);
    if k == 0 {
      assert all == times;
    } else {
      assert all[..|all| - 1] == times + Repeat(t, k - 1);
      RepeatWithin(times, t, k - 1, from, to);
    }
  }

  /** The first life: one call at its start, the others in its last millisecond. */
  function First(w: nat, k: nat): Life
    requires w > 0
  {
    Life(0, w, [0] + Repeat(w - 1, k))
  }

  /** The second life: all calls at its start. */
  function Second(w: nat, k: nat): Life {
    Life(w, 2 * w, Repeat(w, k))
  }

  lemma {:induction false} FirstLife(cfg: Config, k: nat) returns (steps: seq<Step>, s: State)
    requires k < cfg.maxCap && cfg.minWindow > 0
    ensures Reached(cfg, steps, s) && s.now == Window(cfg) - 1 && Logged(s, [First(Window(cfg), k)], true)
  {
    if k == 0 {
      steps, s := Show(cfg, [], INIT, [], false);
      steps, s := Do(cfg, steps, s, Env(Advance(Window(cfg) - 1)));
      assert [0] + Repeat(Window(cfg) - 1, 0) == [0];
    } else {
      steps, s := FirstLife(cfg, k - 1);
      assert First(Window(cfg), k).times == First(Window(cfg), k - 1).times + [Window(cfg) - 1];
      steps, s := Show(cfg, steps, s, [First(Window(cfg), k - 1)], true);
    }
  }

  lemma {:induction false} SecondLife(cfg: Config, k: nat) returns (steps: seq<Step>, s: State)
    requires 1 <= k <= cfg.maxCap && cfg.minWindow > 0
    ensures Reached(cfg, steps, s) && s.now == Window(cfg)
    ensures Logged(s, [First(Window(cfg), cfg.maxCap - 1), Second(Window(cfg), k)], true)
  {
    var first := First(Window(cfg), cfg.maxCap - 1);
    if k == 1 {
      steps, s := FirstLife(cfg, cfg.maxCap - 1);
      steps, s := Do(cfg, steps, s, Env(Advance(1)));
      steps, s := Do(cfg, steps, s, Env(DropKey(FreqCount(USER, AD))));
      steps, s := Show(cfg, steps, s, [first], false);
      assert Second(Window(cfg), 1).times == [Window(cfg)];
    } else {
      steps, s := SecondLife(cfg, k - 1);
      steps, s := Show(cfg, steps, s, [first, Second(Window(cfg), k - 1)], true);
    }
  }

  /** For every cap and every window of more than a millisecond some run lets one user through 2 * cap - 1 times in
      an interval as long as the window. */
  lemma BoundIsReached(cfg: Config) returns (steps: seq<Step>, s: State, from: int)
    requires cfg.maxCap > 0 && cfg.minWindow > 1
    ensures After(cfg, INIT, steps) == Some(s)
    ensures var lives := LogAt(s.hist.lives, (USER, AD));
            |set i, j | 0 <= i < |lives| && 0 <= j < |lives[i].times| &&
                        from <= lives[i].times[j] < from + cfg.minWindow :: (i, j)| == 2 * cfg.maxCap - 1
  {
    steps, s := SecondLife(cfg, cfg.maxCap);
    from := Window(cfg) - 1;
    TwoLivesCount(Window(cfg), cfg.maxCap, from, from + cfg.minWindow);
  }

  lemma TwoLivesCount(w: nat, cap: nat, from: int, to: int)
    requires cap > 0 && w > 1 && from == w - 1 && to > w
    ensures |Calls([First(w, cap - 1), Second(w, cap)], from, to)| == 2 * cap - 1
  {
    FirstWithin(w, cap - 1, from, to);
    SecondWithin(w, cap, from, to);
    AcceptedPair(First(w, cap - 1), Second(w, cap), from, to);
    AcceptedIsCount([First(w, cap - 1), Second(w, cap)], from, to);
  }

  lemma FirstWithin(w: nat, k: nat, from: int, to: int)
    requires w > 1 && from == w - 1 && to > w
    ensures Within(First(w, k).times, from, to) == k
  {
    RepeatWithin([0], w - 1, k, from, to);
    assert [0][..0] == [];
  }

  lemma SecondWithin(w: nat, k: nat, from: int, to: int)
    requires from <= w < to
    ensures Within(Second(w, k).times, from, to) == k
  {
    RepeatWithin([], w, k, from, to);
    assert [] + Repeat(w, k) == Repeat(w, k);
  }

  lemma AcceptedPair(first: Life, second: Life, from: int, to: int)
    ensures Accepted([first, second], from, to) == Within(first.times, from, to) + Within(second.times, from, to)
  {
    assert [first, second][..1] == [first] && [first][..0] == [];
    assert Accepted([first], from, to) == Within(first.times, from, to);
  }
}
