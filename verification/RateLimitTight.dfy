/** The condition of RateLimit.EvictionUnobservable is exact: with a larger burst some run tells the limiter from
    one that never forgets. */
module RateLimitTight {
  import opened Options
  import opened RateLimit

  const IP := ""

  /** Other visitors, all distinct. */
  function Other(i: nat): (k: string)
    ensures |k| == i
  {
    seq(i, _ => 'x')
  }

  lemma Extend(cfg: Config, ops: seq<Op>, op: Op) returns (ops': seq<Op>)
    requires LegalRun(cfg, ops) && Legal(cfg, After(cfg, ops), op) && (ops != [] ==> Clock(ops) <= op.at)
    ensures ops' == ops + [op] && ops'[..|ops'| - 1] == ops && LegalRun(cfg, ops') && Clock(ops') == op.at
    ensures After(cfg, ops') == Apply(cfg, After(cfg, ops), op).0
    ensures Remembered(cfg, ops') == Remember(cfg, Remembered(cfg, ops), op).0
  {
    ops' := ops + [op];
    assert ops'[..|ops'| - 1] == ops;
  }

  /** One visitor, and what it has left. */
  ghost predicate Alone(s: State, m: Memory, b: Bucket) {
    && s.approxSize == 1 && s.bag.Keys == {IP} && s.bag[IP] == Visitor(b, 0)
    && IP in m && m[IP] == b
  }

  /** The visitor spends its burst just before second 1. */
  lemma {:induction false} Spend(cfg: Config, e: real, n: nat) returns (ops: seq<Op>)
    requires cfg.rate > 0.0 && cfg.cap > 0 && 0.0 < e < 1.0 && 1 <= n <= cfg.burst
    ensures LegalRun(cfg, ops) && Clock(ops) == 1.0 - e
    ensures Alone(After(cfg, ops), Remembered(cfg, ops), Bucket((cfg.burst - n) as real, 1.0 - e))
  {
    assert (1.0 - e).Floor == 0;
    if n == 1 {
      ops := Extend(cfg, [], Call(IP, 1.0 - e, None));
    } else {
      ops := Spend(cfg, e, n - 1);
      SpendOne(cfg, After(cfg, ops), Remembered(cfg, ops), e, n);
      ops := Extend(cfg, ops, Call(IP, 1.0 - e, None));
    }
  }

  lemma SpendOne(cfg: Config, s: State, m: Memory, e: real, n: nat)
    requires cfg.rate > 0.0 && 0.0 < e < 1.0 && 1 < n <= cfg.burst
    requires Alone(s, m, Bucket((cfg.burst - (n - 1)) as real, 1.0 - e))
    ensures var op := Call(IP, 1.0 - e, None);
            && Legal(cfg, s, op)
            && Alone(Apply(cfg, s, op).0, Remember(cfg, m, op).0, Bucket((cfg.burst - n) as real, 1.0 - e))
  {
  }

  /** j more visitors came at second 61; the first one is still known, or just forgotten. */
  ghost predicate Crowded(cfg: Config, s: State, m: Memory, e: real, j: nat, known: bool) {
    && IP in m && m[IP] == Bucket(0.0, 1.0 - e)
    && (IP in s.bag <==> known) && (known ==> s.bag[IP].lastSeen == 0)
    && s.approxSize == j + (if known then 1 else 0)
    && (forall k <- s.bag :: k == IP || (1 <= |k| <= j && s.bag[k].lastSeen == 61))
  }

  lemma {:induction false} Crowd(cfg: Config, e: real, j: nat) returns (ops: seq<Op>)
    requires cfg.rate > 0.0 && j < cfg.cap && 0.0 < e < 1.0 && cfg.burst >= 1
    ensures LegalRun(cfg, ops) && Clock(ops) <= 61.0
    ensures Crowded(cfg, After(cfg, ops), Remembered(cfg, ops), e, j, true)
  {
    if j == 0 {
      ops := Spend(cfg, e, cfg.burst);
    } else {
      ops := Crowd(cfg, e, j - 1);
      ops := Extend(cfg, ops, Call(Other(j), 61.0, None));
    }
  }

  /** At capacity the next newcomer pushes the first visitor out. */
  lemma Forgotten(cfg: Config, e: real) returns (ops: seq<Op>)
    requires cfg.rate > 0.0 && cfg.cap > 0 && 0.0 < e < 1.0 && cfg.burst >= 1
    ensures LegalRun(cfg, ops) && Clock(ops) == 61.0
    ensures Crowded(cfg, After(cfg, ops), Remembered(cfg, ops), e, cfg.cap, false)
  {
    ops := Crowd(cfg, e, cfg.cap - 1);
    ops := Extend(cfg, ops, Call(Other(cfg.cap), 61.0, Some(IP)));
  }

  /** The visitor is back and has called n times: forgotten, it has more tokens left than remembered. */
  ghost predicate Ahead(cfg: Config, s: State, m: Memory, n: nat) {
    && IP in s.bag && s.bag[IP].bucket == Bucket((cfg.burst - n) as real, 61.0)
    && IP in m && m[IP].last == 61.0
    && (m[IP].tokens < 1.0 || m[IP].tokens < (cfg.burst - n) as real)
  }

  lemma {:induction false} Return(cfg: Config, e: real, n: nat) returns (ops: seq<Op>)
    requires cfg.rate > 0.0 && cfg.cap > 0 && 0.0 < e < 1.0 && 1 <= n < cfg.burst
    requires Gain(cfg.rate, 60.0 + e) < cfg.burst as real
    ensures LegalRun(cfg, ops) && Clock(ops) == 61.0 && Ahead(cfg, After(cfg, ops), Remembered(cfg, ops), n)
  {
    if n == 1 {
      ops := Forgotten(cfg, e);
      assert 61.0 - (1.0 - e) == 60.0 + e;
    } else {
      ops := Return(cfg, e, n - 1);
    }
    ops := Extend(cfg, ops, Call(IP, 61.0, None));
  }

  lemma Differs(cfg: Config, e: real) returns (ops: seq<Op>)
    requires cfg.rate > 0.0 && cfg.cap > 0 && 0.0 < e < 1.0 && cfg.burst >= 1
    requires Gain(cfg.rate, 60.0 + e) < cfg.burst as real
    ensures LegalRun(cfg, ops) && Answers(cfg, ops) != UnboundedAnswers(cfg, ops)
  {
    var before;
    if cfg.burst == 1 {
      before := Forgotten(cfg, e);
      assert 61.0 - (1.0 - e) == 60.0 + e;
    } else {
      before := Return(cfg, e, cfg.burst - 1);
    }
    ops := Extend(cfg, before, Call(IP, 61.0, None));
    var a, u := Answers(cfg, ops), UnboundedAnswers(cfg, ops);
    assert a[|a| - 1] && !u[|u| - 1];
  }

  /** A fraction of a second that leaves the refill short of the burst. */
  lemma Shortfall(rate: real, burst: real) returns (e: real)
    requires rate > 0.0 && burst > 60.0 * rate
    ensures 0.0 < e < 1.0 && Gain(rate, 60.0 + e) < burst
  {
    var gap := burst - 60.0 * rate;
    e := gap / (2.0 * rate);
    if e >= 1.0 {
      e := 0.5;
    }
    assert Gain(rate, 60.0 + e) == 60.0 * rate + rate * e;
  }

  /** Forgetting idle visitors is unobservable exactly when a bucket fills within the idle time. */
  lemma EvictionUnobservableIff(cfg: Config)
    requires cfg.rate > 0.0 && cfg.cap > 0
    ensures (forall ops | LegalRun(cfg, ops) :: Answers(cfg, ops) == UnboundedAnswers(cfg, ops))
            <==> cfg.burst as real <= 60.0 * cfg.rate
  {
    if cfg.burst as real <= 60.0 * cfg.rate {
      forall ops | LegalRun(cfg, ops) ensures Answers(cfg, ops) == UnboundedAnswers(cfg, ops) {
        EvictionUnobservable(cfg, ops);
      }
    } else {
      var e := Shortfall(cfg.rate, cfg.burst as real);
      var ops := Differs(cfg, e);
      assert LegalRun(cfg, ops);
    }
  }
}
