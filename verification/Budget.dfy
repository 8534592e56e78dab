/** Campaign budgets over every run: the counter is the exact record of accepted reservations and stays within the
    cap, responses never outnumber reservations, and a campaign the worker has completed is closed for good. */
module Budget {
  import opened Options
  import opened Events
  import opened Redis
  import opened Protocol
  import opened Sums
  import opened Runs
  import opened Frames

  function HoldsFor(c: Id): Vast -> nat {
    (q: Vast) => if q.phase.Holding? && q.phase.c.campaign == c then 1 else 0
  }

  function Spent(db: Db, c: Id): int {
    NumAt(db, ImpsTotal(c))
  }

  /** The counter of a campaign is a positive number without an expiry, within the cap. */
  ghost predicate CounterOk(cfg: Config, db: Db, c: Id) {
    && Positive(db, ImpsTotal(c)) && ExpiryOf(db, ImpsTotal(c)) == None
    && (cfg.Cap(c) > 0 ==> Spent(db, c) <= cfg.Cap(c))
  }

  /** Counter, reservations, replies and responses agree. */
  ghost predicate Ledger(cfg: Config, s: State, c: Id) {
    && CounterOk(cfg, s.db, c)
    && Spent(s.db, c) == NatAt(s.hist.reserved, c)
    && NatAt(s.hist.reserved, c) == NatAt(s.hist.reported, c) + NatAt(s.hist.unreported, c)
    && NatAt(s.hist.inlined, c) + SumBy(s.vasts, HoldsFor(c)) <= NatAt(s.hist.reported, c)
  }

  lemma Unchanged(cfg: Config, s: State, s': State, k: Key, c: Id)
    requires Ledger(cfg, s, c) && OnlyAt(s.db, s'.db, k) && k != ImpsTotal(c)
    requires s'.hist.reserved == s.hist.reserved && s'.hist.reported == s.hist.reported
    requires s'.hist.unreported == s.hist.unreported
    requires NatAt(s'.hist.inlined, c) + SumBy(s'.vasts, HoldsFor(c)) <=
             NatAt(s.hist.inlined, c) + SumBy(s.vasts, HoldsFor(c))
    ensures Ledger(cfg, s', c)
  {
  }

  lemma EnvLedger(cfg: Config, s: State, e: EnvStep, c: Id)
    requires EnvEnabled(cfg, s, e) && Ledger(cfg, s, c)
    ensures Ledger(cfg, EnvNext(s, e), c)
  {
    if e.RequestAd? {
      SumAppend(s.vasts, Vast(e.user, 0, Choosing), HoldsFor(c));
    } else if !e.FetchPixel? {
      EnvOneKey(cfg, s, e);
      EnvLeaves(cfg, s, e);
      Unchanged(cfg, s, EnvNext(s, e), Touched(cfg, s, Env(e)), c);
    }
  }

  /** What a /vast step does to the ledger of one campaign, before the process list is counted. */
  ghost predicate EffectLedger(cfg: Config, s: State, q: Vast, e: VastEffect, c: Id) {
    var held := HoldsFor(c)(q);
    var held' := HoldsFor(c)(Vast(q.user, e.attempts, e.phase));
    && CounterOk(cfg, e.db, c)
    && Spent(e.db, c) - Spent(s.db, c) == NatAt(e.reserved, c) - NatAt(s.hist.reserved, c)
    && NatAt(e.reserved, c) - NatAt(s.hist.reserved, c) ==
       NatAt(e.reported, c) - NatAt(s.hist.reported, c) + NatAt(e.unreported, c) - NatAt(s.hist.unreported, c)
    && NatAt(e.inlined, c) + held' - NatAt(s.hist.inlined, c) - held <= NatAt(e.reported, c) - NatAt(s.hist.reported, c)
  }

  /** The script ran on campaign own. */
  lemma ReservedLedger(cfg: Config, s: State, q: Vast, told: bool, d: Db, n: int, c: Id)
    requires q.phase.BudgetCall? && CounterOk(cfg, s.db, c)
    requires var own := q.phase.c.campaign;
             && (n == -1 ==> d == s.db)
             && (n != -1 ==>
                   OnlyAt(s.db, d, ImpsTotal(own)) && CounterOk(cfg, d, own) && Spent(d, own) == Spent(s.db, own) + 1)
    ensures EffectLedger(cfg, s, q, Reserved(s, q, q.phase.c, told, d, n), c)
  {
  }

  lemma ReserveLedger(cfg: Config, s: State, q: Vast, r: Reply, c: Id)
    requires q.phase.BudgetCall? && !r.Late? && CounterOk(cfg, s.db, c) && CounterOk(cfg, s.db, q.phase.c.campaign)
    ensures EffectLedger(cfg, s, q, ReserveEffect(cfg, s, q, q.phase.c, r), c)
  {
    var own := q.phase.c.campaign;
    if r.Executes() {
      BudgetScriptExact(s.db, ImpsTotal(own), cfg.Cap(own));
      var (d, n) := BudgetScript(s.db, ImpsTotal(own), cfg.Cap(own));
      ReservedLedger(cfg, s, q, r.Ok?, d, n, c);
    }
  }

  /** The effect changes no record of the budget. */
  ghost predicate NoBudget(s: State, e: VastEffect) {
    && e.reserved == s.hist.reserved && e.reported == s.hist.reported && e.unreported == s.hist.unreported
    && e.inlined == s.hist.inlined && !e.phase.Holding?
  }

  lemma ConsumeNoBudget(s: State, q: Vast, c: Cand, r: Reply)
    ensures NoBudget(s, ConsumeEffect(s, q, c, r))
  {
  }

  lemma OtherVastLedger(cfg: Config, s: State, i: nat, v: VastStep, c: Id)
    requires VastEnabled(cfg, s, i, v) && !v.Reserve? && CounterOk(cfg, s.db, c)
    ensures EffectLedger(cfg, s, s.vasts[i], VastEffectOf(cfg, s, s.vasts[i], v), c)
  {
    if v.Consume? {
      var p := s.vasts[i].phase;
      ConsumeNoBudget(s, s.vasts[i], p.c, v.r);
      ConsumeOther(s, s.vasts[i], p.c, v.r, c);
    }
  }

  lemma ConsumeOther(s: State, q: Vast, a: Cand, r: Reply, c: Id)
    ensures var d := ConsumeEffect(s, q, a, r).db;
            && (ImpsTotal(c) in d <==> ImpsTotal(c) in s.db)
            && (ImpsTotal(c) in d ==> d[ImpsTotal(c)] == s.db[ImpsTotal(c)])
  {
  }

  lemma VastLedger(cfg: Config, s: State, i: nat, v: VastStep, c: Id)
    requires VastEnabled(cfg, s, i, v) && Ledger(cfg, s, c)
    requires v.Reserve? ==> CounterOk(cfg, s.db, s.vasts[i].phase.c.campaign)
    ensures Ledger(cfg, VastNext(cfg, s, i, v), c)
  {
    var q := s.vasts[i];
    var e := VastEffectOf(cfg, s, q, v);
    if v.Reserve? {
      ReserveLedger(cfg, s, q, v.r, c);
    } else {
      OtherVastLedger(cfg, s, i, v, c);
    }
    SumUpdate(s.vasts, i, Vast(q.user, e.attempts, e.phase), HoldsFor(c));
  }

  lemma StepLedger(cfg: Config, s: State, step: Step, c: Id)
    requires Enabled(cfg, s, step) && forall c' :: Ledger(cfg, s, c')
    ensures Ledger(cfg, Next(cfg, s, step), c)
  {
    match step
    case Env(e) => EnvLedger(cfg, s, e, c);
    case TrackOf(i, t) =>
      OneKey(cfg, s, step);
      Unchanged(cfg, s, TrackNext(cfg, s, i, t), Touched(cfg, s, step), c);
    case VastOf(i, v) =>
      assert v.Reserve? ==> Ledger(cfg, s, s.vasts[i].phase.c.campaign);
      VastLedger(cfg, s, i, v, c);
    case WorkOf(i, w) =>
      OneKey(cfg, s, step);
      Unchanged(cfg, s, WorkNext(cfg, s, i, w), Touched(cfg, s, step), c);
  }

  lemma {:induction false} RunLedger(cfg: Config, steps: seq<Step>, s: State, c: Id)
    requires After(cfg, INIT, steps) == Some(s)
    ensures Ledger(cfg, s, c)
  {
    if steps != [] {
      var t := After(cfg, INIT, steps[..|steps| - 1]).value;
      forall c' ensures Ledger(cfg, t, c') { RunLedger(cfg, steps[..|steps| - 1], t, c'); }
      StepLedger(cfg, t, steps[|steps| - 1], c);
    }
  }

  /** In every run: responses <= reservations a handler knows of <= the counter <= the cap; and the counter equals
      the known reservations unless a reply was lost. */
  lemma BudgetHolds(cfg: Config, steps: seq<Step>, s: State, c: Id)
    requires After(cfg, INIT, steps) == Some(s)
    ensures NatAt(s.hist.inlined, c) <= NatAt(s.hist.reported, c) <= NumAt(s.db, ImpsTotal(c))
    ensures c in cfg.limits && cfg.limits[c] > 0 ==> NumAt(s.db, ImpsTotal(c)) <= cfg.limits[c]
    ensures NumAt(s.db, ImpsTotal(c)) == NatAt(s.hist.reported, c) + NatAt(s.hist.unreported, c)
  {
    RunLedger(cfg, steps, s, c);
  }

  /** In every run a heard reservation is granted exactly while the campaign's limit has room; a campaign without a
      limit, or with limit 0, is never rejected. A grant adds one to the counter, a rejection nothing. */
  lemma GrantedWhileRoom(cfg: Config, steps: seq<Step>, s: State, i: nat)
    requires After(cfg, INIT, steps) == Some(s) && VastEnabled(cfg, s, i, Reserve(Ok))
    ensures var a, s' := s.vasts[i].phase.c, VastNext(cfg, s, i, Reserve(Ok));
            var n := NumAt(s.db, ImpsTotal(a.campaign));
            if a.campaign in cfg.limits && 0 < cfg.limits[a.campaign] <= n then
              s'.vasts[i].phase == Choosing && s'.db == s.db
            else
              s'.vasts[i].phase == Holding(a) && NumAt(s'.db, ImpsTotal(a.campaign)) == n + 1
  {
    var c := s.vasts[i].phase.c.campaign;
    RunLedger(cfg, steps, s, c);
    BudgetScriptExact(s.db, ImpsTotal(c), cfg.Cap(c));
  }

  // --- Pausing ------------------------------------------------------------------------------------

  /** The campaigns a worker may still examine. */
  function Examines(w: Worker): set<Id> {
    w.campaigns + (if w.phase.Reconciling? || w.phase.Pausing? then w.phase.open else {})
  }

  ghost predicate Full(cfg: Config, db: Db, c: Id) {
    cfg.Cap(c) > 0 && Spent(db, c) >= cfg.Cap(c)
  }

  ghost predicate WorkerSound(cfg: Config, db: Db, w: Worker) {
    && (forall c <- Examines(w) :: cfg.Cap(c) > 0)
    && (w.phase.Pausing? ==> Full(cfg, db, w.phase.c))
  }

  /** Only full campaigns are completed or about to be. */
  ghost predicate PausesSound(cfg: Config, s: State) {
    && (forall c <- s.completed :: Full(cfg, s.db, c))
    && (forall w <- s.workers :: WorkerSound(cfg, s.db, w))
    && (forall x <- s.sent :: x.SentPause? ==> Full(cfg, s.db, x.c))
  }

  /** No step lowers a budget counter. */
  lemma SpentNeverFalls(cfg: Config, s: State, step: Step, c: Id)
    requires Enabled(cfg, s, step) && forall c' :: Ledger(cfg, s, c')
    ensures Spent(Next(cfg, s, step).db, c) >= Spent(s.db, c)
  {
    OneKey(cfg, s, step);
    if Touched(cfg, s, step) == ImpsTotal(c) {
      assert Ledger(cfg, s, c);
      if step.VastOf? {
        ReserveLedger(cfg, s, s.vasts[step.i], step.v.r, c);
        ReservedGrows(cfg, s, s.vasts[step.i], step.v.r, c);
      }
    }
  }

  lemma ReservedGrows(cfg: Config, s: State, q: Vast, r: Reply, c: Id)
    requires q.phase.BudgetCall?
    ensures NatAt(ReserveEffect(cfg, s, q, q.phase.c, r).reserved, c) >= NatAt(s.hist.reserved, c)
  {
  }

  lemma WorkerStaysSound(cfg: Config, db: Db, d: Db, w: Worker)
    requires WorkerSound(cfg, db, w) && forall c :: Spent(d, c) >= Spent(db, c)
    ensures WorkerSound(cfg, d, w)
  {
  }

  /** What a worker step may add to its campaigns or complete. */
  ghost predicate Sound(cfg: Config, s: State, w: Worker, e: WorkEffect) {
    && WorkerSound(cfg, s.db, e.worker)
    && e.completed <= s.completed + (if w.phase.Pausing? then {w.phase.c} else {})
    && (forall x <- e.sent :: x in s.sent || (x.SentPause? ==> w.phase.Pausing? && x.c == w.phase.c))
  }

  /** A step to a phase without open campaigns. */
  lemma Leaves(cfg: Config, s: State, w: Worker, e: WorkEffect)
    requires WorkerSound(cfg, s.db, w) && e.completed == s.completed
    requires forall x <- e.sent :: x in s.sent || !x.SentPause?
    requires e.worker.campaigns == w.campaigns && !e.worker.phase.Reconciling? && !e.worker.phase.Pausing?
    ensures Sound(cfg, s, w, e)
  {
  }

  lemma AcquireSound(cfg: Config, s: State, w: Worker, r: Reply)
    requires WorkerSound(cfg, s.db, w)
    ensures Sound(cfg, s, w, AcquireEffect(cfg, s, w, r))
  {
  }

  lemma UpsertSound(cfg: Config, s: State, w: Worker, row: Row, r: Reply)
    requires WorkerSound(cfg, s.db, w) && row in w.deltas && w.phase.Upserting?
    ensures Sound(cfg, s, w, UpsertEffect(s, w, row, r))
  {
  }

  lemma ReconcileSound(cfg: Config, s: State, i: nat, t: WorkStep)
    requires WorkEnabled(cfg, s, i, t) && WorkerSound(cfg, s.db, s.workers[i])
    requires t.Load? || t.EndUpsert? || t.ReadBudget? || t.Pause?
    ensures Sound(cfg, s, s.workers[i], WorkEffectOf(cfg, s, s.workers[i], t))
  {
  }

  lemma WorkerStepSound(cfg: Config, s: State, i: nat, t: WorkStep)
    requires WorkEnabled(cfg, s, i, t) && WorkerSound(cfg, s.db, s.workers[i])
    ensures Sound(cfg, s, s.workers[i], WorkEffectOf(cfg, s, s.workers[i], t))
  {
    var w := s.workers[i];
    match t
    case Acquire(r) => AcquireSound(cfg, s, w, r);
    case Upsert(row, r) => UpsertSound(cfg, s, w, row, r);
    case Load(_) => ReconcileSound(cfg, s, i, t);
    case EndUpsert => ReconcileSound(cfg, s, i, t);
    case ReadBudget(_, _) => ReconcileSound(cfg, s, i, t);
    case Pause(_) => ReconcileSound(cfg, s, i, t);
    case _ => Leaves(cfg, s, w, WorkEffectOf(cfg, s, w, t));
  }

  /** Completed campaigns, and those about to be, stay full. */
  lemma StaySound(cfg: Config, s: State, d: Db)
    requires PausesSound(cfg, s) && forall c :: Spent(d, c) >= Spent(s.db, c)
    ensures PausesSound(cfg, s.(db := d))
  {
    forall w | w in s.workers ensures WorkerSound(cfg, d, w) {
      WorkerStaysSound(cfg, s.db, d, w);
    }
  }

  lemma EnvSound(cfg: Config, s: State, e: EnvStep)
    requires EnvEnabled(cfg, s, e) && PausesSound(cfg, s)
    ensures PausesSound(cfg, EnvNext(s, e).(db := s.db))
  {
    if e.Land? {
      assert s.sent[e.i] in s.sent;
    }
  }

  lemma WorkSound(cfg: Config, s: State, i: nat, t: WorkStep)
    requires WorkEnabled(cfg, s, i, t) && PausesSound(cfg, s)
    ensures PausesSound(cfg, WorkNext(cfg, s, i, t).(db := s.db))
  {
    assert WorkerSound(cfg, s.db, s.workers[i]);
    WorkerStepSound(cfg, s, i, t);
  }

  lemma StepSound(cfg: Config, s: State, step: Step)
    requires Enabled(cfg, s, step) && PausesSound(cfg, s) && forall c :: Ledger(cfg, s, c)
    ensures PausesSound(cfg, Next(cfg, s, step))
  {
    var s' := Next(cfg, s, step);
    match step {
      case WorkOf(i, w) => WorkSound(cfg, s, i, w);
      case Env(e) => EnvSound(cfg, s, e);
      case _ => RequestsLeave(cfg, s, step);
    }
    assert PausesSound(cfg, s'.(db := s.db));
    forall c ensures Spent(s'.db, c) >= Spent(s.db, c) { SpentNeverFalls(cfg, s, step, c); }
    StaySound(cfg, s'.(db := s.db), s'.db);
  }

  lemma {:induction false} RunSound(cfg: Config, steps: seq<Step>, s: State)
    requires After(cfg, INIT, steps) == Some(s)
    ensures PausesSound(cfg, s)
  {
    if steps != [] {
      var t := After(cfg, INIT, steps[..|steps| - 1]).value;
      RunSound(cfg, steps[..|steps| - 1], t);
      forall c ensures Ledger(cfg, t, c) { RunLedger(cfg, steps[..|steps| - 1], t, c); }
      StepSound(cfg, t, steps[|steps| - 1]);
    }
  }

  lemma {:induction false} SpentGrows(cfg: Config, steps: seq<Step>, s: State, more: seq<Step>, t: State, c: Id)
    requires After(cfg, INIT, steps) == Some(s) && After(cfg, s, more) == Some(t)
    ensures Spent(t.db, c) >= Spent(s.db, c)
  {
    if more != [] {
      var n := |more| - 1;
      var u := After(cfg, s, more[..n]).value;
      SpentGrows(cfg, steps, s, more[..n], u, c);
      RunAppend(cfg, INIT, steps, s, more[..n]);
      forall c' ensures Ledger(cfg, u, c') { RunLedger(cfg, steps + more[..n], u, c'); }
      SpentNeverFalls(cfg, u, more[n], c);
    }
  }

  /** The worker only completes capped campaigns that are spent to the last impression, and no later step of any
      handler, however stale its snapshot, reserves one more. */
  lemma CompletedIsFinal(cfg: Config, steps: seq<Step>, s: State, more: seq<Step>, t: State, c: Id)
    requires After(cfg, INIT, steps) == Some(s) && c in s.completed
    requires After(cfg, s, more) == Some(t)
    ensures c in cfg.limits && NumAt(s.db, ImpsTotal(c)) == cfg.limits[c] > 0
    ensures NatAt(t.hist.reserved, c) == NatAt(s.hist.reserved, c) == cfg.limits[c]
  {
    RunSound(cfg, steps, s);
    RunLedger(cfg, steps, s, c);
    SpentGrows(cfg, steps, s, more, t, c);
    RunAppend(cfg, INIT, steps, s, more);
    RunLedger(cfg, steps + more, t, c);
  }
}
