/** The per-IP rate limiter: token buckets in a bounded map that forgets idle visitors. */
module RateLimit {
  import opened Options

  const IDLE_EVICT := 60
  const IDLE_SWEEP := 900

  /** rate: tokens per second; burst: the size of a bucket; cap: the size from which admissions evict. */
  datatype Config = Config(rate: real, burst: nat, cap: nat)

  function NewConfig(rps: real, burst: nat, capN: int): (cfg: Config)
    ensures cfg.cap > 0
  {
    Config(rps, burst, if capN <= 0 then 100_000 else capN)
  }

  // --- The token bucket ---------------------------------------------------------------------------

  /** Times are in seconds. */
  datatype Bucket = Bucket(tokens: real, last: real)

  function Full(cfg: Config, now: real): (b: Bucket) {
    Bucket(cfg.burst as real, now)
  }

  function Gain(rate: real, elapsed: real): (g: real)
    ensures rate > 0.0 && elapsed >= 60.0 ==> g >= 60.0 * rate
    ensures rate > 0.0 && elapsed >= 0.0 ==> g >= 0.0
  {
    rate * elapsed
  }

  /** Tokens accrue up to the burst. */
  function Refill(cfg: Config, b: Bucket, now: real): (r: Bucket) {
    var t := b.tokens + Gain(cfg.rate, now - b.last);
    Bucket(if t > cfg.burst as real then cfg.burst as real else t, now)
  }

  /** One token per admitted request. */
  function Take(b: Bucket): (r: (Bucket, bool)) {
    if b.tokens >= 1.0 then (b.(tokens := b.tokens - 1.0), true) else (b, false)
  }

  // --- The limiter --------------------------------------------------------------------------------

  datatype Visitor = Visitor(bucket: Bucket, lastSeen: int)

  datatype State = State(bag: map<string, Visitor>, approxSize: int)

  const EMPTY := State(map[], 0)

  /** A call of Allow, with the visitor its eviction pass hit first, or a sweep. */
  datatype Op = Call(key: string, at: real, evict: Option<string>) | Sweep(at: real)

  predicate Stale(v: Visitor, now: real, idle: int) {
    v.lastSeen < now.Floor - idle
  }

  /** The pass runs for a new key at capacity and deletes one stale visitor, whichever, if there is any. */
  predicate Legal(cfg: Config, s: State, op: Op) {
    op.Call? && cfg.rate > 0.0 ==>
      if op.key in s.bag || s.approxSize < cfg.cap then op.evict == None
      else if op.evict.Some? then op.evict.value in s.bag && Stale(s.bag[op.evict.value], op.at, IDLE_EVICT)
      else forall k <- s.bag :: !Stale(s.bag[k], op.at, IDLE_EVICT)
  }

  function Evict(s: State, k: Option<string>): (t: State) {
    if k.Some? then State(s.bag - {k.value}, s.approxSize - 1) else s
  }

  /** The visitor a call works on: the one in the map, or a new one with a full bucket. */
  function Bucketed(cfg: Config, s: State, key: string, at: real): (b: Bucket) {
    if key in s.bag then Refill(cfg, s.bag[key].bucket, at) else Full(cfg, at)
  }

  function Swept(s: State, at: real): (bag: map<string, Visitor>) {
    map k | k in s.bag && !Stale(s.bag[k], at, IDLE_SWEEP) :: s.bag[k]
  }

  /** The state after an operation and the answer; sweeps answer true. A rate of zero switches the limiter off. */
  function Apply(cfg: Config, s: State, op: Op): (r: (State, bool)) {
    match op
    case Sweep(at) => (State(Swept(s, at), s.approxSize - (|s.bag| - |Swept(s, at)|)), true)
    case Call(key, at, evict) =>
      if cfg.rate <= 0.0 then (s, true)
      else
        var (b, ok) := Take(Bucketed(cfg, s, key, at));
        var t := Evict(s, evict);
        (State(t.bag[key := Visitor(b, at.Floor)], if key in s.bag then t.approxSize else t.approxSize + 1), ok)
  }

  /** The limiter that never forgets. */
  type Memory = map<string, Bucket>

  function Remember(cfg: Config, m: Memory, op: Op): (r: (Memory, bool)) {
    if op.Sweep? || cfg.rate <= 0.0 then (m, true)
    else
      var (b, ok) := Take(if op.key in m then Refill(cfg, m[op.key], op.at) else Full(cfg, op.at));
      (m[op.key := b], ok)
  }

  // --- One operation, in numbers ------------------------------------------------------------------

  /** A visitor with b tokens who calls again after a time d has min(burst, b + rate * d) by then, is admitted exactly
      if that is at least 1, and is left with 1 less; an unknown one starts with the burst. Only the called visitor
      and an evicted one change. A rate that is not positive admits everything. */
  lemma CallExact(cfg: Config, s: State, key: string, at: real, d: real, evict: Option<string>)
    requires Legal(cfg, s, Call(key, at, evict)) && (key in s.bag ==> d == at - s.bag[key].bucket.last)
    ensures cfg.rate <= 0.0 ==> Apply(cfg, s, Call(key, at, evict)) == (s, true)
    ensures cfg.rate > 0.0 ==>
              var accrued := if key in s.bag then s.bag[key].bucket.tokens + cfg.rate * d else cfg.burst as real;
              var level := if accrued > cfg.burst as real then cfg.burst as real else accrued;
              Spends(s, key, at, evict, level, Apply(cfg, s, Call(key, at, evict)))
  {
    if key in s.bag {
      RefillExact(cfg, s.bag[key].bucket, at, d);
    }
    if cfg.rate > 0.0 {
      CallSpends(cfg, s, key, at, evict);
    }
  }

  /** The outcome of a call of a visitor who has this many tokens. */
  ghost predicate Spends(s: State, key: string, at: real, evict: Option<string>, level: real, r: (State, bool)) {
    var (t, ok) := r;
    && (ok <==> level >= 1.0)
    && key in t.bag && t.bag[key] == Visitor(Bucket(if ok then level - 1.0 else level, at), at.Floor)
    && (forall k | k != key :: k in t.bag <==> k in s.bag && evict != Some(k))
    && (forall k <- t.bag :: k != key ==> t.bag[k] == s.bag[k])
  }

  lemma CallSpends(cfg: Config, s: State, key: string, at: real, evict: Option<string>)
    requires Legal(cfg, s, Call(key, at, evict)) && cfg.rate > 0.0
    ensures Spends(s, key, at, evict, Bucketed(cfg, s, key, at).tokens, Apply(cfg, s, Call(key, at, evict)))
  {
  }

  lemma RefillExact(cfg: Config, b: Bucket, now: real, d: real)
    requires d == now - b.last
    ensures var accrued := b.tokens + cfg.rate * d;
            Refill(cfg, b, now) == Bucket(if accrued > cfg.burst as real then cfg.burst as real else accrued, now)
  {
    assert Gain(cfg.rate, now - b.last) == Gain(cfg.rate, d) == cfg.rate * d;
  }

  /** A known visitor, or room in the map: nobody is evicted. Otherwise one visitor last seen more than 60 seconds
      ago is, if there is one. */
  lemma EvictionExact(cfg: Config, s: State, key: string, at: real, evict: Option<string>)
    requires Legal(cfg, s, Call(key, at, evict)) && cfg.rate > 0.0
    ensures key in s.bag || s.approxSize < cfg.cap ==> evict == None
    ensures evict.Some? ==> evict.value in s.bag && at.Floor - s.bag[evict.value].lastSeen > 60
    ensures key !in s.bag && s.approxSize >= cfg.cap && evict == None ==>
              forall k <- s.bag :: at.Floor - s.bag[k].lastSeen <= 60
  {
  }

  /** A sweep drops exactly the visitors last seen more than 900 seconds ago, and counts them down. */
  lemma SweepExact(cfg: Config, s: State, at: real)
    ensures var (t, _) := Apply(cfg, s, Sweep(at));
            && (forall k :: k in t.bag <==> k in s.bag && at.Floor - s.bag[k].lastSeen <= 900)
            && (forall k <- t.bag :: t.bag[k] == s.bag[k])
            && s.approxSize - t.approxSize == |s.bag| - |t.bag|
  {
  }

  // --- Runs ---------------------------------------------------------------------------------------

  function After(cfg: Config, ops: seq<Op>): (s: State) {
    if ops == [] then EMPTY else Apply(cfg, After(cfg, ops[..|ops| - 1]), ops[|ops| - 1]).0
  }

  function Answers(cfg: Config, ops: seq<Op>): (a: seq<bool>) {
    if ops == [] then []
    else Answers(cfg, ops[..|ops| - 1]) + [Apply(cfg, After(cfg, ops[..|ops| - 1]), ops[|ops| - 1]).1]
  }

  function Remembered(cfg: Config, ops: seq<Op>): (m: Memory) {
    if ops == [] then map[] else Remember(cfg, Remembered(cfg, ops[..|ops| - 1]), ops[|ops| - 1]).0
  }

  function UnboundedAnswers(cfg: Config, ops: seq<Op>): (a: seq<bool>) {
    if ops == [] then []
    else UnboundedAnswers(cfg, ops[..|ops| - 1]) + [Remember(cfg, Remembered(cfg, ops[..|ops| - 1]), ops[|ops| - 1]).1]
  }

  /** Every step legal, the clock never going back. */
  ghost predicate LegalRun(cfg: Config, ops: seq<Op>) {
    ops != [] ==>
      && LegalRun(cfg, ops[..|ops| - 1])
      && Legal(cfg, After(cfg, ops[..|ops| - 1]), ops[|ops| - 1])
      && (|ops| > 1 ==> ops[|ops| - 2].at <= ops[|ops| - 1].at)
  }

  // --- Eviction is unobservable -------------------------------------------------------------------

  /** Visitors in the map have the remembered bucket; forgotten ones have been idle long enough to be full. */
  ghost predicate Agrees(cfg: Config, s: State, m: Memory, now: real) {
    && s.bag.Keys <= m.Keys
    && (forall k <- m :: 0.0 <= m[k].tokens <= cfg.burst as real && m[k].last <= now)
    && (forall k <- s.bag :: s.bag[k].bucket == m[k] && m[k].last.Floor == s.bag[k].lastSeen)
    && (forall k <- m :: k !in s.bag ==> m[k].last.Floor < now.Floor - IDLE_EVICT)
  }

  lemma LongIdleIsFull(cfg: Config, b: Bucket, now: real)
    requires cfg.rate > 0.0 && cfg.burst as real <= 60.0 * cfg.rate
    requires 0.0 <= b.tokens && b.last.Floor < now.Floor - IDLE_EVICT
    ensures Refill(cfg, b, now) == Full(cfg, now)
  {
  }

  function Clock(ops: seq<Op>): (now: real) {
    if ops == [] then 0.0 else ops[|ops| - 1].at
  }

  lemma StepAgrees(cfg: Config, s: State, m: Memory, before: real, op: Op)
    requires cfg.rate > 0.0 && cfg.burst as real <= 60.0 * cfg.rate
    requires Legal(cfg, s, op) && Agrees(cfg, s, m, before) && before <= op.at
    ensures Agrees(cfg, Apply(cfg, s, op).0, Remember(cfg, m, op).0, op.at)
    ensures Apply(cfg, s, op).1 == Remember(cfg, m, op).1
  {
  }

  lemma {:induction false} RunAgrees(cfg: Config, ops: seq<Op>)
    requires cfg.rate > 0.0 && cfg.burst as real <= 60.0 * cfg.rate && LegalRun(cfg, ops)
    ensures Agrees(cfg, After(cfg, ops), Remembered(cfg, ops), Clock(ops))
    ensures Answers(cfg, ops) == UnboundedAnswers(cfg, ops)
  {
    if ops != [] {
      var n := |ops| - 1;
      RunAgrees(cfg, ops[..n]);
      var before := if n == 0 then ops[n].at else Clock(ops[..n]);
      StepAgrees(cfg, After(cfg, ops[..n]), Remembered(cfg, ops[..n]), before, ops[n]);
    }
  }

  /** Nobody can tell that the limiter forgets, if a bucket fills up within the idle time. */
  lemma EvictionUnobservable(cfg: Config, ops: seq<Op>)
    requires cfg.burst as real <= 60.0 * cfg.rate && LegalRun(cfg, ops)
    ensures Answers(cfg, ops) == UnboundedAnswers(cfg, ops)
  {
    if cfg.rate > 0.0 {
      RunAgrees(cfg, ops);
    } else {
      OffAnswers(cfg, ops);
    }
  }

  lemma {:induction false} OffAnswers(cfg: Config, ops: seq<Op>)
    requires cfg.rate <= 0.0
    ensures Answers(cfg, ops) == UnboundedAnswers(cfg, ops)
  {
    if ops != [] {
      OffAnswers(cfg, ops[..|ops| - 1]);
    }
  }

  // --- Rate ---------------------------------------------------------------------------------------

  lemma {:induction false} AnswerLengths(cfg: Config, ops: seq<Op>)
    ensures |Answers(cfg, ops)| == |UnboundedAnswers(cfg, ops)| == |ops|
  {
    if ops != [] {
      AnswerLengths(cfg, ops[..|ops| - 1]);
    }
  }

  /** What a visitor could spend at a time. */
  function Level(cfg: Config, m: Memory, key: string, now: real): (l: real) {
    if key in m then Refill(cfg, m[key], now).tokens else cfg.burst as real
  }

  lemma LevelGrows(cfg: Config, m: Memory, key: string, t: real, t': real)
    requires cfg.rate > 0.0 && t <= t'
    ensures Level(cfg, m, key, t') <= Level(cfg, m, key, t) + Gain(cfg.rate, t' - t)
    ensures Level(cfg, m, key, t) <= cfg.burst as real
  {
    if key in m {
      GainsAdd(cfg.rate, t - m[key].last, t' - t);
    }
  }

  lemma LevelSpent(cfg: Config, m: Memory, op: Op, key: string)
    requires cfg.rate > 0.0
    ensures var (m', ok) := Remember(cfg, m, op);
            Level(cfg, m', key, op.at) ==
            Level(cfg, m, key, op.at) - (if op.Call? && op.key == key && ok then 1.0 else 0.0)
  {
    assert Gain(cfg.rate, op.at - op.at) == 0.0;
  }

  /** How many calls of a key the limiter that never forgets admits from operation `from` on. */
  function Admissions(cfg: Config, ops: seq<Op>, key: string, from: nat): (n: nat) {
    if |ops| <= from then 0
    else
      var before, op := ops[..|ops| - 1], ops[|ops| - 1];
      Admissions(cfg, before, key, from) +
      One(op.Call? && op.key == key && Remember(cfg, Remembered(cfg, before), op).1)
  }

  function One(yes: bool): nat {
    if yes then 1 else 0
  }

  ghost predicate Monotone(ops: seq<Op>) {
    forall i, j | 0 <= i < j < |ops| :: ops[i].at <= ops[j].at
  }

  /** The level of a visitor after a run. */
  function Left(cfg: Config, ops: seq<Op>, key: string): (l: real) {
    Level(cfg, Remembered(cfg, ops), key, Clock(ops))
  }

  /** One operation: what it takes is gone, what has accrued in the meantime is added at most. */
  lemma StepSpends(cfg: Config, before: seq<Op>, op: Op, key: string)
    requires cfg.rate > 0.0 && before != [] && Clock(before) <= op.at
    ensures var ok := Remember(cfg, Remembered(cfg, before), op).1;
            Left(cfg, before + [op], key) + One(op.Call? && op.key == key && ok) as real <=
            Left(cfg, before, key) + Gain(cfg.rate, op.at - Clock(before))
  {
    assert (before + [op])[..|before|] == before;
    var m := Remembered(cfg, before);
    var (m', ok) := Remember(cfg, m, op);
    Spent(cfg, m, m', op, ok, key, Clock(before));
  }

  lemma Spent(cfg: Config, m: Memory, m': Memory, op: Op, ok: bool, key: string, t: real)
    requires cfg.rate > 0.0 && (m', ok) == Remember(cfg, m, op) && t <= op.at
    ensures Level(cfg, m', key, op.at) + One(op.Call? && op.key == key && ok) as real <=
            Level(cfg, m, key, t) + Gain(cfg.rate, op.at - t)
  {
    LevelSpent(cfg, m, op, key);
    LevelGrows(cfg, m, key, t, op.at);
  }

  lemma FirstSpends(cfg: Config, before: seq<Op>, op: Op, key: string)
    requires cfg.rate > 0.0
    ensures var ok := Remember(cfg, Remembered(cfg, before), op).1;
            Left(cfg, before + [op], key) + One(op.Call? && op.key == key && ok) as real <= cfg.burst as real
  {
    assert (before + [op])[..|before|] == before;
    LevelSpent(cfg, Remembered(cfg, before), op, key);
    LevelGrows(cfg, Remembered(cfg, before), key, op.at, op.at);
  }

  /** What has accrued from operation `from` to the last one. */
  function Accrued(cfg: Config, ops: seq<Op>, from: nat): (a: real)
    requires from < |ops|
    decreases |ops|
  {
    if |ops| == from + 1 then 0.0
    else Accrued(cfg, ops[..|ops| - 1], from) + Gain(cfg.rate, ops[|ops| - 1].at - ops[|ops| - 2].at)
  }

  lemma {:induction false} AccruedIs(cfg: Config, ops: seq<Op>, from: nat, d: real)
    requires from < |ops| && d == Clock(ops) - ops[from].at
    ensures Accrued(cfg, ops, from) == Gain(cfg.rate, d)
  {
    if |ops| > from + 1 {
      var n := |ops| - 1;
      AccruedIs(cfg, ops[..n], from, Clock(ops[..n]) - ops[from].at);
      GainsAdd(cfg.rate, Clock(ops[..n]) - ops[from].at, ops[n].at - ops[n - 1].at);
    }
  }

  /** What was admitted and what is left never exceed the burst and what has accrued since. */
  lemma {:induction false} SpentAndLeft(cfg: Config, ops: seq<Op>, key: string, from: nat)
    requires cfg.rate > 0.0 && Monotone(ops) && from < |ops|
    ensures Admissions(cfg, ops, key, from) as real + Left(cfg, ops, key) <=
            cfg.burst as real + Accrued(cfg, ops, from)
  {
    var n := |ops| - 1;
    assert ops[..n] + [ops[n]] == ops;
    if from == n {
      FirstSpends(cfg, ops[..n], ops[n], key);
    } else {
      SpentAndLeft(cfg, ops[..n], key, from);
      StepSpends(cfg, ops[..n], ops[n], key);
    }
  }

  /** The calls of a key admitted from operation `from` on. */
  function Admitted(ops: seq<Op>, answers: seq<bool>, key: string, from: nat): (ks: set<nat>)
    requires |answers| == |ops|
  {
    set k | from <= k < |ops| && ops[k].Call? && ops[k].key == key && answers[k]
  }

  lemma AdmittedNext(ops: seq<Op>, op: Op, answers: seq<bool>, answer: bool, key: string, from: nat)
    requires |answers| == |ops| && from <= |ops|
    ensures |Admitted(ops + [op], answers + [answer], key, from)| ==
            |Admitted(ops, answers, key, from)| + One(op.Call? && op.key == key && answer)
  {
    var before, after := Admitted(ops, answers, key, from), Admitted(ops + [op], answers + [answer], key, from);
    if op.Call? && op.key == key && answer {
      assert after == before + {|ops|};
    } else {
      assert after == before;
    }
  }

  lemma {:induction false} AdmissionsCount(cfg: Config, ops: seq<Op>, key: string, from: nat)
    ensures |UnboundedAnswers(cfg, ops)| == |ops|
    ensures from <= |ops| ==> |Admitted(ops, UnboundedAnswers(cfg, ops), key, from)| == Admissions(cfg, ops, key, from)
  {
    AnswerLengths(cfg, ops);
    if from < |ops| {
      var n := |ops| - 1;
      AdmissionsCount(cfg, ops[..n], key, from);
      AdmittedNext(ops[..n], ops[n], UnboundedAnswers(cfg, ops[..n]), UnboundedAnswers(cfg, ops)[n], key, from);
      assert ops[..n] + [ops[n]] == ops;
    }
  }

  lemma {:induction false} LegalRunIsMonotone(cfg: Config, ops: seq<Op>)
    requires LegalRun(cfg, ops)
    ensures Monotone(ops)
  {
    if |ops| > 1 {
      var n := |ops| - 1;
      LegalRunIsMonotone(cfg, ops[..n]);
      forall i | 0 <= i < n ensures ops[i].at <= ops[n].at {
        assert ops[..n][i].at <= ops[..n][n - 1].at;
      }
    }
  }

  /** The rate limit: from any operation of a run to its last one, a visitor is admitted at most as often as the burst
      and the rate over that time d allow. The run may be cut anywhere, so this holds for every interval. */
  lemma RateBound(cfg: Config, ops: seq<Op>, key: string, from: nat, d: real, g: real)
    requires cfg.rate > 0.0 && cfg.burst as real <= 60.0 * cfg.rate && LegalRun(cfg, ops)
    requires from < |ops| && d == ops[|ops| - 1].at - ops[from].at && g == cfg.rate * d
    ensures |Answers(cfg, ops)| == |ops|
    ensures |set k | from <= k < |ops| && ops[k].Call? && ops[k].key == key && Answers(cfg, ops)[k]| as real <=
            cfg.burst as real + g
  {
    GainIs(cfg.rate, d, g);
    AnswersBound(cfg, ops, key, from, d, g);
  }

  lemma GainIs(rate: real, d: real, g: real)
    requires g == rate * d
    ensures g == Gain(rate, d)
  {
  }

  lemma AnswersBound(cfg: Config, ops: seq<Op>, key: string, from: nat, d: real, g: real)
    requires cfg.rate > 0.0 && cfg.burst as real <= 60.0 * cfg.rate && LegalRun(cfg, ops)
    requires from < |ops| && d == ops[|ops| - 1].at - ops[from].at && g == Gain(cfg.rate, d)
    ensures |Answers(cfg, ops)| == |ops|
    ensures |set k | from <= k < |ops| && ops[k].Call? && ops[k].key == key && Answers(cfg, ops)[k]| as real <=
            cfg.burst as real + g
  {
    EvictionUnobservable(cfg, ops);
    AnswersCount(cfg, ops, key, from);
    AdmissionsBound(cfg, ops, key, from, d, g);
  }

  lemma AnswersCount(cfg: Config, ops: seq<Op>, key: string, from: nat)
    requires from < |ops| && Answers(cfg, ops) == UnboundedAnswers(cfg, ops)
    ensures |Answers(cfg, ops)| == |ops|
    ensures |set k | from <= k < |ops| && ops[k].Call? && ops[k].key == key && Answers(cfg, ops)[k]| ==
            Admissions(cfg, ops, key, from)
  {
    AdmissionsCount(cfg, ops, key, from);
    assert (set k | from <= k < |ops| && ops[k].Call? && ops[k].key == key && Answers(cfg, ops)[k]) ==
           Admitted(ops, Answers(cfg, ops), key, from);
  }

  lemma AdmissionsBound(cfg: Config, ops: seq<Op>, key: string, from: nat, d: real, g: real)
    requires cfg.rate > 0.0 && cfg.burst as real <= 60.0 * cfg.rate && LegalRun(cfg, ops)
    requires from < |ops| && d == Clock(ops) - ops[from].at && g == Gain(cfg.rate, d)
    ensures Admissions(cfg, ops, key, from) as real <= cfg.burst as real + g
  {
    AdmissionsAccrue(cfg, ops, key, from);
    AccruedIs(cfg, ops, from, d);
  }

  lemma AdmissionsAccrue(cfg: Config, ops: seq<Op>, key: string, from: nat)
    requires cfg.rate > 0.0 && cfg.burst as real <= 60.0 * cfg.rate && LegalRun(cfg, ops) && from < |ops|
    ensures Admissions(cfg, ops, key, from) as real <= cfg.burst as real + Accrued(cfg, ops, from)
  {
    LegalRunIsMonotone(cfg, ops);
    SpentAndLeft(cfg, ops, key, from);
    LeftNonnegative(cfg, ops, key);
  }

  lemma LeftNonnegative(cfg: Config, ops: seq<Op>, key: string)
    requires cfg.rate > 0.0 && cfg.burst as real <= 60.0 * cfg.rate && LegalRun(cfg, ops)
    ensures Left(cfg, ops, key) >= 0.0
  {
    RunAgrees(cfg, ops);
  }

  lemma GainsAdd(rate: real, d: real, e: real)
    ensures Gain(rate, d) + Gain(rate, e) == Gain(rate, d + e)
  {
  }

  // --- Size ---------------------------------------------------------------------------------------

  /** The keys called since a unix second. */
  function KeysSince(ops: seq<Op>, second: int): (keys: set<string>) {
    set op <- ops | op.Call? && op.at.Floor >= second :: op.key
  }

  /** The keys whose call carries a unix-second stamp at most 60 below that of the last operation. */
  function Recent(ops: seq<Op>): (keys: set<string>) {
    KeysSince(ops, Clock(ops).Floor - 60)
  }

  /** The counter is exact, and what the map shows as seen was seen. */
  ghost predicate SizeInv(s: State, ops: seq<Op>) {
    && s.approxSize == |s.bag|
    && forall k <- s.bag :: k in KeysSince(ops, s.bag[k].lastSeen)
  }

  ghost predicate Bounded(cfg: Config, s: State, ops: seq<Op>) {
    |s.bag| <= cfg.cap || exists i :: 0 <= i <= |ops| && |s.bag| <= |Recent(ops[..i])|
  }

  lemma {:induction false} SubsetSize<T>(a: set<T>, b: set<T>)
    requires a <= b
    ensures |a| <= |b|
  {
    if a != {} {
      var x :| x in a;
      SubsetSize(a - {x}, b - {x});
    }
  }

  /** A call changes the size by at most the one visitor it adds. */
  lemma CallSize(cfg: Config, s: State, op: Op)
    requires op.Call? && s.approxSize == |s.bag| && Legal(cfg, s, op)
    ensures var t := Apply(cfg, s, op).0;
            t.approxSize == |t.bag| == |s.bag| + (if cfg.rate <= 0.0 || op.key in s.bag || op.evict.Some? then 0 else 1)
  {
  }

  lemma StepSize(cfg: Config, s: State, ops: seq<Op>)
    requires ops != [] && SizeInv(s, ops[..|ops| - 1]) && Legal(cfg, s, ops[|ops| - 1])
    ensures SizeInv(Apply(cfg, s, ops[|ops| - 1]).0, ops)
  {
  }

  lemma StepBounded(cfg: Config, s: State, ops: seq<Op>)
    requires ops != [] && SizeInv(s, ops[..|ops| - 1]) && Legal(cfg, s, ops[|ops| - 1])
    requires Bounded(cfg, s, ops[..|ops| - 1])
    ensures Bounded(cfg, Apply(cfg, s, ops[|ops| - 1]).0, ops)
  {
    var n := |ops| - 1;
    var op := ops[n];
    var t := Apply(cfg, s, op).0;
    if op.Sweep? {
      SubsetSize(t.bag.Keys, s.bag.Keys);
    } else {
      CallSize(cfg, s, op);
    }
    if |t.bag| <= |s.bag| {
      StaysBounded(cfg, s, t, ops);
    } else if s.approxSize >= cfg.cap {
      AllRecent(s, ops);
      SubsetSize(t.bag.Keys, Recent(ops));
      assert ops[..|ops|] == ops;
    }
  }

  lemma StaysBounded(cfg: Config, s: State, t: State, ops: seq<Op>)
    requires ops != [] && Bounded(cfg, s, ops[..|ops| - 1]) && |t.bag| <= |s.bag|
    ensures Bounded(cfg, t, ops)
  {
    var n := |ops| - 1;
    if |s.bag| > cfg.cap {
      var i :| 0 <= i <= n && |s.bag| <= |Recent(ops[..n][..i])|;
      assert ops[..n][..i] == ops[..i];
    }
  }

  /** Without a stale visitor the whole map was called within the last 60 unix-second stamps. */
  lemma AllRecent(s: State, ops: seq<Op>)
    requires ops != [] && SizeInv(s, ops[..|ops| - 1]) && ops[|ops| - 1].Call?
    requires forall k <- s.bag :: !Stale(s.bag[k], ops[|ops| - 1].at, IDLE_EVICT)
    ensures s.bag.Keys + {ops[|ops| - 1].key} <= Recent(ops)
  {
  }

  /** In every run the counter equals the number of visitors, and that number never exceeds the larger of the cap
      and the most distinct keys called with unix-second stamps at most 60 apart. */
  lemma {:induction false} SizeBounded(cfg: Config, ops: seq<Op>)
    requires LegalRun(cfg, ops)
    ensures SizeInv(After(cfg, ops), ops) && Bounded(cfg, After(cfg, ops), ops)
  {
    if ops != [] {
      var n := |ops| - 1;
      SizeBounded(cfg, ops[..n]);
      StepSize(cfg, After(cfg, ops[..n]), ops);
      StepBounded(cfg, After(cfg, ops[..n]), ops);
    }
  }

  // --- The limiter as it runs ---------------------------------------------------------------------

  class Limiter {
    const cfg: Config
    var bag: map<string, Visitor>
    var approxSize: int

    constructor (rps: real, burst: nat, capN: int)
      ensures cfg.rate == rps && cfg.burst == burst && cfg.cap == (if capN > 0 then capN else 100_000)
      ensures bag == map[] && approxSize == 0
    {
      cfg := NewConfig(rps, burst, capN);
      bag, approxSize := map[], 0;
    }

    function Now(): State
      reads this
    {
      State(bag, approxSize)
    }

    method EvictOne(now: real) returns (ghost evict: Option<string>)
      modifies this
      ensures Now() == Evict(old(Now()), evict)
      ensures if evict.Some? then evict.value in old(bag) && Stale(old(bag)[evict.value], now, IDLE_EVICT)
              else forall k <- bag :: !Stale(bag[k], now, IDLE_EVICT)
    {
      var todo := bag.Keys;
      evict := None;
      while todo != {}
        invariant todo <= bag.Keys && Now() == old(Now()) && evict == None
        invariant forall k <- bag :: k !in todo ==> !Stale(bag[k], now, IDLE_EVICT)
        decreases |todo|
      {
        var k :| k in todo;
        if bag[k].lastSeen < now.Floor - IDLE_EVICT {
          bag := bag - {k};
          approxSize := approxSize - 1;
          evict := Some(k);
          return;
        }
        todo := todo - {k};
      }
    }

    method Allow(key: string, now: real) returns (allowed: bool)
      modifies this
      ensures exists evict ::
                && Legal(cfg, old(Now()), Call(key, now, evict))
                && (Now(), allowed) == Apply(cfg, old(Now()), Call(key, now, evict))
    {
      ghost var evict: Option<string> := None;
      if cfg.rate <= 0.0 {
        assert Legal(cfg, Now(), Call(key, now, evict));
        return true;
      }
      if key in bag {
        var (b, ok) := Take(Refill(cfg, bag[key].bucket, now));
        bag := bag[key := Visitor(b, now.Floor)];
        assert Legal(cfg, old(Now()), Call(key, now, evict));
        return ok;
      }
      if approxSize >= cfg.cap {
        evict := EvictOne(now);
      }
      var r := Take(Full(cfg, now));
      bag := bag[key := Visitor(r.0, now.Floor)];
      approxSize := approxSize + 1;
      allowed := r.1;
      assert Legal(cfg, old(Now()), Call(key, now, evict));
    }

    /** One pass of Run. */
    method SweepOnce(now: real)
      modifies this
      ensures (Now(), true) == Apply(cfg, old(Now()), Sweep(now))
    {
      var todo := bag.Keys;
      while todo != {}
        invariant todo <= bag.Keys
        invariant forall k :: k in bag <==> k in old(bag) && (k in todo || !Stale(old(bag)[k], now, IDLE_SWEEP))
        invariant forall k <- bag :: bag[k] == old(bag)[k]
        invariant approxSize - |bag| == old(approxSize) - |old(bag)|
        decreases |todo|
      {
        var k :| k in todo;
        if bag[k].lastSeen < now.Floor - IDLE_SWEEP {
          bag := bag - {k};
          approxSize := approxSize - 1;
        }
        todo := todo - {k};
      }
      assert bag == Swept(old(Now()), now);
    }
  }
}
