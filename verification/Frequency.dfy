/** Frequency caps over every run: a key's life accepts at most its cap, lives do not overlap, and so an interval as
    long as the window sees less than twice the cap. */
module Frequency {
  import opened Options
  import opened Redis
  import opened Protocol
  import opened Frames

  ghost predicate LifeOk(cfg: Config, l: Life, now: int) {
    && 1 <= |l.times| <= cfg.maxCap && l.times[0] == l.start
    && l.start + cfg.minWindow <= l.until
    && forall t <- l.times :: l.start <= t <= now
  }

  /** Lives are well formed, and each began after the one before had run its full window and seen its last call. */
  ghost predicate LivesOk(cfg: Config, lives: seq<Life>, now: int) {
    && (forall i | 0 <= i < |lives| :: LifeOk(cfg, lives[i], now))
    && (forall i, j | 0 <= i < j < |lives| :: Precedes(lives[i], lives[j]))
  }

  ghost predicate Precedes(l: Life, m: Life) {
    && l.until <= m.start
    && forall t <- l.times :: t <= m.start
  }

  /** The live key is the last life: it carries that life's expiry and its number of calls. */
  ghost predicate KeyIsLastLife(e: Entry, lives: seq<Life>) {
    && lives != []
    && var last := lives[|lives| - 1];
       e.value == Num(|last.times|) && e.expires == Some(last.until)
  }

  /** Without a key the last life is over. */
  ghost predicate Over(lives: seq<Life>, now: int) {
    lives != [] ==> lives[|lives| - 1].until <= now
  }

  ghost predicate FreqInv(cfg: Config, s: State, user: Id, ad: Id) {
    var k, lives := FreqCount(user, ad), LogAt(s.hist.lives, (user, ad));
    && LivesOk(cfg, lives, s.now)
    && (if k in s.db then KeyIsLastLife(s.db[k], lives) else Over(lives, s.now))
  }

  // --- One accepted call --------------------------------------------------------------------------

  /** The script and the log of lives move together. */
  lemma ConsumeKeeps(cfg: Config, s: State, user: Id, ad: Id, cap: int, window: int)
    requires FreqInv(cfg, s, user, ad) && 0 < cap <= cfg.maxCap && 0 < window && cfg.minWindow <= 1000 * window
    ensures var k, lives := FreqCount(user, ad), LogAt(s.hist.lives, (user, ad));
            var (d, n) := FreqScript(s.db, k, cap, window, s.now);
            var log := if n == -1 then lives else Live(lives, k !in s.db, s.now, window);
            LivesOk(cfg, log, s.now) && k in d && KeyIsLastLife(d[k], log)
  {
    var k, lives := FreqCount(user, ad), LogAt(s.hist.lives, (user, ad));
    FreqScriptExact(s.db, k, cap, window, s.now);
    if k !in s.db {
      Begins(cfg, lives, s.now, window);
    } else if NumAt(s.db, k) < cap {
      Continues(cfg, lives, s.now);
    }
  }

  lemma Begins(cfg: Config, lives: seq<Life>, now: nat, window: int)
    requires LivesOk(cfg, lives, now) && Over(lives, now) && cfg.maxCap > 0 && cfg.minWindow <= 1000 * window
    ensures LivesOk(cfg, lives + [Life(now, now + 1000 * window, [now])], now)
  {
  }

  lemma Continues(cfg: Config, lives: seq<Life>, now: nat)
    requires LivesOk(cfg, lives, now) && lives != [] && |lives[|lives| - 1].times| < cfg.maxCap
    ensures var last := lives[|lives| - 1];
            LivesOk(cfg, lives[|lives| - 1 := last.(times := last.times + [now])], now)
  {
    var n := |lives| - 1;
    var grown := lives[n].(times := lives[n].times + [now]);
    assert LifeOk(cfg, lives[n], now);
    assert lives[n].times[0] in lives[n].times;
    assert LifeOk(cfg, grown, now);
    forall i | 0 <= i < n ensures Precedes(lives[i], grown) {
      assert Precedes(lives[i], lives[n]);
    }
  }

  // --- Every step ---------------------------------------------------------------------------------

  /** Time passes, other keys change. */
  lemma Undisturbed(cfg: Config, s: State, s': State, k: Key, user: Id, ad: Id)
    requires FreqInv(cfg, s, user, ad) && OnlyAt(s.db, s'.db, k) && s.now <= s'.now
    requires || k != FreqCount(user, ad)
             || (k in s.db && k !in s'.db && s.db[k].expires.Some? && s.db[k].expires.value <= s'.now)
    requires LogAt(s'.hist.lives, (user, ad)) == LogAt(s.hist.lives, (user, ad))
    ensures FreqInv(cfg, s', user, ad)
  {
  }

  lemma VastLives(cfg: Config, s: State, i: nat, v: VastStep)
    requires VastEnabled(cfg, s, i, v) && !v.Consume?
    ensures VastEffectOf(cfg, s, s.vasts[i], v).lives == s.hist.lives
  {
    match v
    case Reserve(r) =>
      var q := s.vasts[i];
      var (d, n) := BudgetScript(s.db, ImpsTotal(q.phase.c.campaign), cfg.Cap(q.phase.c.campaign));
      ReservedLives(s, q, q.phase.c, r.Ok?, d, n);
    case _ =>
  }

  lemma ReservedLives(s: State, q: Vast, c: Cand, told: bool, d: Db, n: int)
    ensures Reserved(s, q, c, told, d, n).lives == s.hist.lives
  {
  }

  /** Every candidate waiting for the frequency script carries a rule within the bounds. */
  ghost predicate RulesOk(cfg: Config, s: State) {
    forall q <- s.vasts :: RuleOk(cfg, q.phase)
  }

  ghost predicate RuleOk(cfg: Config, p: VastPhase) {
    p.FreqCall? ==> 0 < p.c.freqCap <= cfg.maxCap && 0 < p.c.window && cfg.minWindow <= 1000 * p.c.window
  }

  lemma ConsumeStep(cfg: Config, s: State, i: nat, r: Reply, user: Id, ad: Id)
    requires VastEnabled(cfg, s, i, Consume(r)) && FreqInv(cfg, s, user, ad) && RulesOk(cfg, s)
    requires s.vasts[i].user == user && s.vasts[i].phase.c.ad == ad
    ensures FreqInv(cfg, VastNext(cfg, s, i, Consume(r)), user, ad)
  {
    var q := s.vasts[i];
    var c := q.phase.c;
    assert RuleOk(cfg, q.phase);
    if r.Executes() {
      ConsumeKeeps(cfg, s, user, ad, c.freqCap, c.window);
      var (d, n) := FreqScript(s.db, FreqCount(user, ad), c.freqCap, c.window, s.now);
      ConsumedLog(s, q, c, r.Ok?, d, n);
    }
  }

  lemma ConsumedLog(s: State, q: Vast, c: Cand, told: bool, d: Db, n: int)
    ensures var e, lives := Consumed(s, q, c, told, d, n), LogAt(s.hist.lives, (q.user, c.ad));
            && e.db == d
            && LogAt(e.lives, (q.user, c.ad)) ==
               (if n == -1 then lives else Live(lives, FreqCount(q.user, c.ad) !in s.db, s.now, c.window))
            && forall k :: k != (q.user, c.ad) ==> LogAt(e.lives, k) == LogAt(s.hist.lives, k)
  {
  }

  /** Only an accepted frequency call of the same user and ad extends the log. */
  lemma StepLives(cfg: Config, s: State, step: Step, user: Id, ad: Id)
    requires Enabled(cfg, s, step)
    requires Touched(cfg, s, step) != FreqCount(user, ad) || !step.VastOf?
    ensures LogAt(Next(cfg, s, step).hist.lives, (user, ad)) == LogAt(s.hist.lives, (user, ad))
  {
    if step.VastOf? && step.v.Consume? {
      var q := s.vasts[step.i];
      var (d, n) := FreqScript(s.db, FreqCount(q.user, q.phase.c.ad), q.phase.c.freqCap, q.phase.c.window, s.now);
      ConsumedLog(s, q, q.phase.c, step.v.r.Ok?, d, n);
    } else if step.VastOf? {
      VastLives(cfg, s, step.i, step.v);
    }
  }

  lemma StepKeepsFreq(cfg: Config, s: State, step: Step, user: Id, ad: Id)
    requires Enabled(cfg, s, step) && FreqInv(cfg, s, user, ad) && RulesOk(cfg, s)
    ensures FreqInv(cfg, Next(cfg, s, step), user, ad)
  {
    if Touched(cfg, s, step) == FreqCount(user, ad) && step.VastOf? {
      ConsumeStep(cfg, s, step.i, step.v.r, user, ad);
    } else {
      OthersKeepFreq(cfg, s, step, user, ad);
    }
  }

  lemma OthersKeepFreq(cfg: Config, s: State, step: Step, user: Id, ad: Id)
    requires Enabled(cfg, s, step) && FreqInv(cfg, s, user, ad)
    requires Touched(cfg, s, step) != FreqCount(user, ad) || !step.VastOf?
    ensures FreqInv(cfg, Next(cfg, s, step), user, ad)
  {
    StepLives(cfg, s, step, user, ad);
    OneKey(cfg, s, step);
    Undisturbed(cfg, s, Next(cfg, s, step), Touched(cfg, s, step), user, ad);
  }

  lemma StepKeepsRules(cfg: Config, s: State, step: Step)
    requires Enabled(cfg, s, step) && RulesOk(cfg, s)
    ensures RulesOk(cfg, Next(cfg, s, step))
  {
    var s' := Next(cfg, s, step);
    if step.VastOf? {
      PhaseRule(cfg, s, step.i, step.v);
    }
    forall q | q in s'.vasts ensures RuleOk(cfg, q.phase) {
      assert q in s.vasts ==> RuleOk(cfg, q.phase);
    }
  }

  lemma PhaseRule(cfg: Config, s: State, i: nat, v: VastStep)
    requires VastEnabled(cfg, s, i, v) && RuleOk(cfg, s.vasts[i].phase)
    ensures RuleOk(cfg, VastEffectOf(cfg, s, s.vasts[i], v).phase)
  {
  }

  lemma {:induction false} RunFreq(cfg: Config, steps: seq<Step>, s: State, user: Id, ad: Id)
    requires After(cfg, INIT, steps) == Some(s)
    ensures RulesOk(cfg, s) && FreqInv(cfg, s, user, ad)
  {
    if steps != [] {
      var t := After(cfg, INIT, steps[..|steps| - 1]).value;
      RunFreq(cfg, steps[..|steps| - 1], t, user, ad);
      StepKeepsRules(cfg, t, steps[|steps| - 1]);
      StepKeepsFreq(cfg, t, steps[|steps| - 1], user, ad);
    }
  }

  // --- The bound ----------------------------------------------------------------------------------

  /** How many of the times lie in [from, to). */
  function Within(times: seq<nat>, from: int, to: int): (n: nat)
    ensures n <= |times|
  {
    if times == [] then 0
    else
      var m := |times| - 1;
      Within(times[..m], from, to) + if from <= times[m] < to then 1 else 0
  }

  /** All accepted calls of a log in [from, to). */
  function Accepted(lives: seq<Life>, from: int, to: int): (n: nat) {
    if lives == [] then 0
    else Accepted(lives[..|lives| - 1], from, to) + Within(lives[|lives| - 1].times, from, to)
  }

  lemma WithinHits(times: seq<nat>, from: int, to: int) returns (t: nat)
    requires Within(times, from, to) > 0
    ensures t in times && from <= t < to
  {
    var m := |times| - 1;
    if from <= times[m] < to {
      t := times[m];
    } else {
      t := WithinHits(times[..m], from, to);
    }
  }

  lemma {:induction false} WithinSkipsFirst(times: seq<nat>, from: int, to: int)
    requires times != [] && times[0] < from
    ensures Within(times, from, to) < |times|
  {
    if |times| > 1 {
      WithinSkipsFirst(times[..|times| - 1], from, to);
    }
  }

  /** The lives that start before `from` contribute less than one life's worth: all but the last of them saw their
      last call by the start of the next, and the last one its first call before `from`. */
  lemma EarlyLives(cfg: Config, lives: seq<Life>, now: int, from: int, to: int)
    requires LivesOk(cfg, lives, now) && lives != [] && lives[|lives| - 1].start < from
    ensures Accepted(lives, from, to) < cfg.maxCap
  {
    var n := |lives| - 1;
    assert LifeOk(cfg, lives[n], now);
    NoneBefore(cfg, lives, now, n, from, to);
    WithinSkipsFirst(lives[n].times, from, to);
  }

  /** Calls of the lives before life n happened by its start. */
  lemma {:induction false} NoneBefore(cfg: Config, lives: seq<Life>, now: int, n: nat, from: int, to: int)
    requires LivesOk(cfg, lives, now) && n < |lives| && lives[n].start < from
    ensures Accepted(lives[..n], from, to) == 0
  {
    if n > 0 {
      assert lives[..n][..n - 1] == lives[..n - 1];
      assert Precedes(lives[n - 1], lives[n]);
      assert LifeOk(cfg, lives[n - 1], now);
      assert lives[n - 1].times[0] in lives[n - 1].times;
      if Within(lives[n - 1].times, from, to) > 0 {
        var _ := WithinHits(lives[n - 1].times, from, to);
      }
      NoneBefore(cfg, lives, now, n - 1, from, to);
    }
  }

  /** One short of twice the cap. */
  function MaxAccepted(cfg: Config): nat {
    if cfg.maxCap == 0 then 0 else 2 * cfg.maxCap - 1
  }

  lemma {:induction false} TwoLives(cfg: Config, lives: seq<Life>, now: int, from: int)
    requires LivesOk(cfg, lives, now)
    ensures Accepted(lives, from, from + cfg.minWindow) <= MaxAccepted(cfg)
  {
    if lives != [] {
      var n, to := |lives| - 1, from + cfg.minWindow;
      var last := lives[n];
      assert LifeOk(cfg, last, now);
      if last.start < from {
        EarlyLives(cfg, lives, now, from, to);
      } else if Within(last.times, from, to) == 0 {
        TwoLives(cfg, lives[..n], now, from);
      } else {
        var _ := WithinHits(last.times, from, to);
        if n > 0 {
          assert Precedes(lives[n - 1], last);
          assert LifeOk(cfg, lives[n - 1], now);
          EarlyLives(cfg, lives[..n], now, from, to);
        }
      }
    }
  }

  /** In every run, for every user and ad: at most maxCap accepted calls in one life of the key, and at most
      2 * maxCap - 1 in any half-open interval as long as the shortest window. An accepted call is the j-th of the
      i-th life. */
  lemma FrequencyHolds(cfg: Config, steps: seq<Step>, s: State, user: Id, ad: Id, from: int)
    requires After(cfg, INIT, steps) == Some(s)
    ensures forall l <- LogAt(s.hist.lives, (user, ad)) :: |l.times| <= cfg.maxCap
    ensures var lives := LogAt(s.hist.lives, (user, ad));
            var calls := set i, j | 0 <= i < |lives| && 0 <= j < |lives[i].times| &&
                                    from <= lives[i].times[j] < from + cfg.minWindow :: (i, j);
            |calls| <= if cfg.maxCap == 0 then 0 else 2 * cfg.maxCap - 1
  {
    var lives := LogAt(s.hist.lives, (user, ad));
    RunFreq(cfg, steps, s, user, ad);
    TwoLives(cfg, lives, s.now, from);
    AcceptedIsCount(lives, from, from + cfg.minWindow);
  }

  function Calls(lives: seq<Life>, from: int, to: int): (cs: set<(int, int)>) {
    set i, j | 0 <= i < |lives| && 0 <= j < |lives[i].times| && from <= lives[i].times[j] < to :: (i, j)
  }

  function Hits(times: seq<nat>, from: int, to: int): (js: set<int>) {
    set j | 0 <= j < |times| && from <= times[j] < to
  }

  lemma {:induction false} WithinIsCount(times: seq<nat>, from: int, to: int)
    ensures Within(times, from, to) == |Hits(times, from, to)|
  {
    if times != [] {
      var m := |times| - 1;
      WithinIsCount(times[..m], from, to);
      assert Hits(times, from, to) == Hits(times[..m], from, to) + (if from <= times[m] < to then {m} else {});
    }
  }

  function Tagged<T>(js: set<T>, n: int): (cs: set<(int, T)>) {
    set j | j in js :: (n, j)
  }

  lemma {:induction false} TaggedCount<T>(js: set<T>, n: int)
    ensures |Tagged(js, n)| == |js|
  {
    if js != {} {
      var k :| k in js;
      TaggedCount(js - {k}, n);
      assert Tagged(js, n) == Tagged(js - {k}, n) + {(n, k)};
    }
  }

  lemma CallsSplit(lives: seq<Life>, from: int, to: int)
    requires lives != []
    ensures var n := |lives| - 1;
            var before, last := Calls(lives[..n], from, to), Tagged(Hits(lives[n].times, from, to), n);
            Calls(lives, from, to) == before + last && before !! last
  {
    var n := |lives| - 1;
    var before, last := Calls(lives[..n], from, to), Tagged(Hits(lives[n].times, from, to), n);
    forall i, j ensures (i, j) in Calls(lives, from, to) <==> (i, j) in before || (i, j) in last {
      assert (i, j) in last <==> i == n && j in Hits(lives[n].times, from, to);
    }
  }

  /** The count by recursion over the lives is the number of accepted calls in the interval. */
  lemma {:induction false} AcceptedIsCount(lives: seq<Life>, from: int, to: int)
    ensures Accepted(lives, from, to) == |Calls(lives, from, to)|
  {
    if lives != [] {
      var n := |lives| - 1;
      AcceptedIsCount(lives[..n], from, to);
      CallsSplit(lives, from, to);
      WithinIsCount(lives[n].times, from, to);
      TaggedCount(Hits(lives[n].times, from, to), n);
    }
  }

  /** A live key always carries an expiry and a value between 1 and the cap. */
  lemma LiveKeyExpires(cfg: Config, steps: seq<Step>, s: State, user: Id, ad: Id)
    requires After(cfg, INIT, steps) == Some(s) && FreqCount(user, ad) in s.db
    ensures var e := s.db[FreqCount(user, ad)];
            e.expires.Some? && e.value.Num? && 1 <= e.value.n <= cfg.maxCap
  {
    RunFreq(cfg, steps, s, user, ad);
  }
}
