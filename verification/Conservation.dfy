/** No count is ever invented or silently duplicated: every INCR applied to a daily counter is in Redis, in a
    worker's hands, in an upsert still in flight, in daily_stats, or in the ledger of what crashes and errors
    destroyed. */
module Conservation {
  import opened Options
  import opened Events
  import opened Redis
  import opened Protocol
  import opened Sums
  import opened Frames

  /** The daily counters hold positive numbers and never expire. */
  ghost predicate CountersPlain(db: Db) {
    forall k <- db :: k.Counter? ==> db[k].value.Num? && db[k].value.n > 0 && db[k].expires == None
  }

  function HeldBy(r: Row, ev: Event): Worker -> nat {
    (w: Worker) => Cell(w.deltas, r, ev)
  }

  function InRedis(db: Db, r: Row, ev: Event): int {
    NumAt(db, Counter(r.ad, ev, r.day))
  }

  /** What an upsert in flight carries. */
  function CarriedBy(r: Row, ev: Event): Sent -> nat {
    (x: Sent) => if x.SentUpsert? then Cell(map[x.row := x.counts], r, ev) else 0
  }

  function InFlight(sent: seq<Sent>, r: Row, ev: Event): nat {
    SumBy(sent, CarriedBy(r, ev))
  }

  ghost predicate Balanced(s: State, r: Row, ev: Event) {
    Cell(s.hist.incrs, r, ev) ==
    InRedis(s.db, r, ev) + SumBy(s.workers, HeldBy(r, ev)) + InFlight(s.sent, r, ev) + Cell(s.stats, r, ev) +
    Cell(s.hist.lost, r, ev)
  }

  /** A step that touches no daily counter in Redis and leaves rows, workers and ledger alone. */
  lemma Elsewhere(s: State, s': State, k: Key, r: Row, ev: Event)
    requires CountersPlain(s.db) && Balanced(s, r, ev)
    requires OnlyAt(s.db, s'.db, k) && !k.Counter?
    requires SumBy(s'.workers, HeldBy(r, ev)) == SumBy(s.workers, HeldBy(r, ev))
    requires InFlight(s'.sent, r, ev) == InFlight(s.sent, r, ev)
    requires s'.stats == s.stats && s'.hist.incrs == s.hist.incrs && s'.hist.lost == s.hist.lost
    ensures CountersPlain(s'.db) && Balanced(s', r, ev)
  {
  }

  // --- One step -----------------------------------------------------------------------------------

  /** A command takes effect late: an upsert's counts reach daily_stats, a GETDEL's the ledger. */
  lemma LandedBalanced(s: State, x: Sent, r: Row, ev: Event)
    requires CountersPlain(s.db)
    ensures var s' := Landed(s, x);
            && CountersPlain(s'.db)
            && InRedis(s'.db, r, ev) + Cell(s'.stats, r, ev) + Cell(s'.hist.lost, r, ev) ==
               InRedis(s.db, r, ev) + Cell(s.stats, r, ev) + Cell(s.hist.lost, r, ev) + CarriedBy(r, ev)(x)
  {
    match x
    case SentUpsert(row, counts) => AddRowsCell(s.stats, map[row := counts], r, ev);
    case SentDrain(row, ev') =>
      if InRedis(s.db, row, ev') > 0 {
        BumpCell(s.hist.lost, row, ev', InRedis(s.db, row, ev'), r, ev);
      }
    case _ =>
  }

  /** It never does: an upsert's counts reach the ledger. */
  lemma ForgottenBalanced(s: State, x: Sent, r: Row, ev: Event)
    ensures var s' := Forgotten(s, x);
            && s'.db == s.db && s'.stats == s.stats
            && Cell(s'.hist.lost, r, ev) == Cell(s.hist.lost, r, ev) + CarriedBy(r, ev)(x)
  {
    if x.SentUpsert? {
      AddRowsCell(s.hist.lost, map[x.row := x.counts], r, ev);
    }
  }

  lemma LandKeeps(s: State, i: nat, r: Row, ev: Event)
    requires i < |s.sent| && CountersPlain(s.db) && Balanced(s, r, ev)
    ensures CountersPlain(EnvNext(s, Land(i)).db) && Balanced(EnvNext(s, Land(i)), r, ev)
  {
    LandedBalanced(s, s.sent[i], r, ev);
    LandedLeaves(s, s.sent[i]);
    SumUpdate(s.sent, i, Gone, CarriedBy(r, ev));
  }

  lemma LoseKeeps(s: State, i: nat, r: Row, ev: Event)
    requires i < |s.sent| && CountersPlain(s.db) && Balanced(s, r, ev)
    ensures CountersPlain(EnvNext(s, Lose(i)).db) && Balanced(EnvNext(s, Lose(i)), r, ev)
  {
    ForgottenBalanced(s, s.sent[i], r, ev);
    SumUpdate(s.sent, i, Gone, CarriedBy(r, ev));
  }

  lemma EnvKeeps(cfg: Config, s: State, e: EnvStep, r: Row, ev: Event)
    requires EnvEnabled(cfg, s, e) && CountersPlain(s.db) && Balanced(s, r, ev)
    ensures CountersPlain(EnvNext(s, e).db) && Balanced(EnvNext(s, e), r, ev)
  {
    match e
    case Land(i) => LandKeeps(s, i, r, ev);
    case Lose(i) => LoseKeeps(s, i, r, ev);
    case StartProcess(id) => SumAppend(s.workers, Worker(id, 0, Idle, map[], {}), HeldBy(r, ev));
    case _ =>
      EnvOneKey(cfg, s, e);
      Elsewhere(s, EnvNext(s, e), Touched(cfg, s, Env(e)), r, ev);
  }

  /** INCR and the record of it move together. */
  lemma CountKeeps(s: State, px: Pixel, day: int, reply: Reply, r: Row, ev: Event)
    requires reply.Executes() && day >= 0 && CountersPlain(s.db)
    ensures var e := CountEffect(s, px, day, reply);
            && CountersPlain(e.db)
            && Cell(e.incrs, r, ev) - Cell(s.hist.incrs, r, ev) == InRedis(e.db, r, ev) - InRedis(s.db, r, ev)
  {
    BumpCell(s.hist.incrs, Row(px.ad, day), px.ev, 1, r, ev);
  }

  lemma TrackKeeps(cfg: Config, s: State, i: nat, t: TrackStep, r: Row, ev: Event)
    requires TrackEnabled(cfg, s, i, t) && CountersPlain(s.db) && Balanced(s, r, ev)
    ensures CountersPlain(TrackNext(cfg, s, i, t).db) && Balanced(TrackNext(cfg, s, i, t), r, ev)
  {
    if t.Count? && t.r.Executes() {
      CountKeeps(s, s.tracks[i].px, s.tracks[i].phase.day, t.r, r, ev);
    } else {
      OtherTrackElsewhere(cfg, s, i, t);
      Elsewhere(s, TrackNext(cfg, s, i, t), Claim(s.tracks[i].px.imp, s.tracks[i].px.ev), r, ev);
    }
  }

  lemma OtherTrackElsewhere(cfg: Config, s: State, i: nat, t: TrackStep)
    requires TrackEnabled(cfg, s, i, t) && !(t.Count? && t.r.Executes())
    ensures var s' := TrackNext(cfg, s, i, t);
            && OnlyAt(s.db, s'.db, Claim(s.tracks[i].px.imp, s.tracks[i].px.ev))
            && s'.workers == s.workers && s'.sent == s.sent && s'.stats == s.stats
            && s'.hist.incrs == s.hist.incrs && s'.hist.lost == s.hist.lost
  {
  }

  lemma VastKeeps(cfg: Config, s: State, i: nat, v: VastStep, r: Row, ev: Event)
    requires VastEnabled(cfg, s, i, v) && CountersPlain(s.db) && Balanced(s, r, ev)
    ensures CountersPlain(VastNext(cfg, s, i, v).db) && Balanced(VastNext(cfg, s, i, v), r, ev)
  {
    VastOneKey(cfg, s, i, v);
    Elsewhere(s, VastNext(cfg, s, i, v), Touched(cfg, s, VastOf(i, v)), r, ev);
  }

  /** The balance of a worker step, on its effect alone. */
  ghost predicate EffectBalanced(s: State, w: Worker, e: WorkEffect, r: Row, ev: Event) {
    InRedis(s.db, r, ev) + Cell(w.deltas, r, ev) + InFlight(s.sent, r, ev) + Cell(s.stats, r, ev) +
    Cell(s.hist.lost, r, ev) ==
    InRedis(e.db, r, ev) + Cell(e.worker.deltas, r, ev) + InFlight(e.sent, r, ev) + Cell(e.stats, r, ev) +
    Cell(e.lost, r, ev)
  }

  lemma LocalBalanced(s: State, w: Worker, e: WorkEffect, r: Row, ev: Event)
    requires CountersPlain(s.db) && Local(s, w, e)
    ensures CountersPlain(e.db) && EffectBalanced(s, w, e, r, ev)
  {
    if e.sent != s.sent {
      var x :| Countless(x) && e.sent == s.sent + [x];
      SumAppend(s.sent, x, CarriedBy(r, ev));
    }
  }

  lemma DrainBalanced(s: State, w: Worker, row: Row, ev': Event, rest: seq<(Row, Event)>, reply: Reply, r: Row,
                      ev: Event)
    requires CountersPlain(s.db)
    ensures var e := DrainEffect(s, w, row, ev', rest, reply);
            CountersPlain(e.db) && EffectBalanced(s, w, e, r, ev)
  {
    var n := InRedis(s.db, row, ev');
    SumAppend(s.sent, SentDrain(row, ev'), CarriedBy(r, ev));
    if n > 0 {
      BumpCell(w.deltas, row, ev', n, r, ev);
      BumpCell(s.hist.lost, row, ev', n, r, ev);
    }
  }

  lemma UpsertBalanced(s: State, w: Worker, row: Row, reply: Reply, r: Row, ev: Event)
    requires row in w.deltas && CountersPlain(s.db)
    ensures var e := UpsertEffect(s, w, row, reply);
            CountersPlain(e.db) && EffectBalanced(s, w, e, r, ev)
  {
    var d := w.deltas;
    RowTaken(d, row, r, ev);
    if AnyNonZero(d[row]) {
      UpsertSettles(s, w, row, reply, r, ev);
    }
  }

  /** The written row reaches daily_stats, the flight or the ledger; on an error the rest goes to the ledger. */
  lemma UpsertSettles(s: State, w: Worker, row: Row, reply: Reply, r: Row, ev: Event)
    requires row in w.deltas && AnyNonZero(w.deltas[row])
    ensures var e, d, written := UpsertEffect(s, w, row, reply), w.deltas, Cell(map[row := w.deltas[row]], r, ev);
            && e.db == s.db && e.worker.phase == (if reply.Ok? then w.phase else Releasing)
            && Cell(e.stats, r, ev) == Cell(s.stats, r, ev) + (if reply.Executes() then written else 0)
            && InFlight(e.sent, r, ev) == InFlight(s.sent, r, ev) + (if reply.Late? then written else 0)
            && Cell(e.worker.deltas, r, ev) == (if reply.Ok? then Cell(d - {row}, r, ev) else 0)
            && Cell(e.lost, r, ev) == Cell(s.hist.lost, r, ev) +
                 (if reply.Ok? then 0 else Cell(if reply.Executes() || reply.Late? then d - {row} else d, r, ev))
  {
    var d := w.deltas;
    AddRowsCell(s.stats, map[row := d[row]], r, ev);
    AddRowsCell(s.hist.lost, if reply.Executes() || reply.Late? then d - {row} else d, r, ev);
    SumAppend(s.sent, SentUpsert(row, d[row]), CarriedBy(r, ev));
  }

  lemma RowTaken(d: Tally, row: Row, r: Row, ev: Event)
    requires row in d
    ensures Cell(d, r, ev) == Cell(d - {row}, r, ev) + Cell(map[row := d[row]], r, ev)
    ensures !AnyNonZero(d[row]) ==> Cell(map[row := d[row]], r, ev) == 0
  {
  }

  lemma WorkKeeps(cfg: Config, s: State, i: nat, t: WorkStep, r: Row, ev: Event)
    requires WorkEnabled(cfg, s, i, t) && CountersPlain(s.db) && Balanced(s, r, ev)
    ensures CountersPlain(WorkNext(cfg, s, i, t).db) && Balanced(WorkNext(cfg, s, i, t), r, ev)
  {
    var w := s.workers[i];
    var e := WorkEffectOf(cfg, s, w, t);
    match t {
      case Drain(reply) => DrainBalanced(s, w, w.phase.todo[0].0, w.phase.todo[0].1, w.phase.todo[1..], reply, r, ev);
      case Upsert(row, reply) => UpsertBalanced(s, w, row, reply, r, ev);
      case Timeout => AddRowsCell(s.hist.lost, w.deltas, r, ev);
      case Crash => AddRowsCell(s.hist.lost, w.deltas, r, ev);
      case _ =>
        QuietLocal(cfg, s, i, t);
        LocalBalanced(s, w, e, r, ev);
    }
    assert CountersPlain(e.db) && EffectBalanced(s, w, e, r, ev);
    SumUpdate(s.workers, i, e.worker, HeldBy(r, ev));
  }

  lemma StepKeeps(cfg: Config, s: State, step: Step, r: Row, ev: Event)
    requires Enabled(cfg, s, step) && CountersPlain(s.db) && Balanced(s, r, ev)
    ensures CountersPlain(Next(cfg, s, step).db) && Balanced(Next(cfg, s, step), r, ev)
  {
    match step
    case Env(e) => EnvKeeps(cfg, s, e, r, ev);
    case TrackOf(i, t) => TrackKeeps(cfg, s, i, t, r, ev);
    case VastOf(i, v) => VastKeeps(cfg, s, i, v, r, ev);
    case WorkOf(i, w) => WorkKeeps(cfg, s, i, w, r, ev);
  }

  // --- Every run ----------------------------------------------------------------------------------

  lemma {:induction false} RunKeeps(cfg: Config, steps: seq<Step>, s: State, r: Row, ev: Event)
    requires After(cfg, INIT, steps) == Some(s)
    ensures CountersPlain(s.db) && Balanced(s, r, ev)
  {
    if steps != [] {
      var t := After(cfg, INIT, steps[..|steps| - 1]).value;
      RunKeeps(cfg, steps[..|steps| - 1], t, r, ev);
      StepKeeps(cfg, t, steps[|steps| - 1], r, ev);
    }
  }

  /** daily_stats never shows more than was counted. */
  lemma NeverOverCounts(cfg: Config, steps: seq<Step>, s: State, r: Row, ev: Event)
    requires After(cfg, INIT, steps) == Some(s)
    ensures Cell(s.stats, r, ev) <= Cell(s.hist.incrs, r, ev)
  {
    RunKeeps(cfg, steps, s, r, ev);
  }

  /** The steps that can destroy a count: a crash or an expired tick, a GETDEL executed without its reply coming
      back, and an upsert that is not acknowledged. */
  predicate Destroys(step: Step) {
    step.WorkOf? && match step.w
                    case Crash => true
                    case Timeout => true
                    case Drain(r) => r.Lost? || r.Late?
                    case Upsert(_, r) => !r.Ok?
                    case _ => false
  }

  /** Nothing in flight carries counts or will take any. */
  ghost predicate NoneInFlight(s: State) {
    forall x <- s.sent :: Countless(x)
  }

  lemma OnlyFailuresLose(cfg: Config, s: State, step: Step)
    requires Enabled(cfg, s, step) && !Destroys(step) && NoneInFlight(s)
    ensures Next(cfg, s, step).hist.lost == s.hist.lost && NoneInFlight(Next(cfg, s, step))
  {
    match step
    case WorkOf(i, t) => WorkerLosesNothing(cfg, s, i, t);
    case Env(e) => EnvLosesNothing(cfg, s, e);
    case _ => RequestsLeave(cfg, s, step);
  }

  lemma EnvLosesNothing(cfg: Config, s: State, e: EnvStep)
    requires EnvEnabled(cfg, s, e) && NoneInFlight(s)
    ensures EnvNext(s, e).hist.lost == s.hist.lost && NoneInFlight(EnvNext(s, e))
  {
    if e.Land? || e.Lose? {
      assert Countless(s.sent[e.i]);
    }
  }

  lemma WorkerLosesNothing(cfg: Config, s: State, i: nat, t: WorkStep)
    requires WorkEnabled(cfg, s, i, t) && !Destroys(WorkOf(i, t)) && NoneInFlight(s)
    ensures WorkNext(cfg, s, i, t).hist.lost == s.hist.lost && NoneInFlight(WorkNext(cfg, s, i, t))
  {
    if Quiet(t) {
      QuietLocal(cfg, s, i, t);
    }
  }

  /** Without such a failure nothing is lost: once the counter is drained and no worker holds any of it, the row
      shows exactly what was counted. */
  lemma {:induction false} NothingLost(cfg: Config, steps: seq<Step>, s: State, r: Row, ev: Event)
    requires After(cfg, INIT, steps) == Some(s)
    requires forall step <- steps | step.WorkOf? ::
               && !step.w.Crash? && !step.w.Timeout?
               && (step.w.Drain? ==> step.w.r in {Ok, Failed}) && (step.w.Upsert? ==> step.w.r == Ok)
    ensures s.hist.lost == map[] && NoneInFlight(s)
    ensures Counter(r.ad, ev, r.day) !in s.db && (forall w <- s.workers :: Cell(w.deltas, r, ev) == 0)
            ==> Cell(s.stats, r, ev) == Cell(s.hist.incrs, r, ev)
  {
    RunKeeps(cfg, steps, s, r, ev);
    if steps != [] {
      var t := After(cfg, INIT, steps[..|steps| - 1]).value;
      NothingLost(cfg, steps[..|steps| - 1], t, r, ev);
      assert steps[|steps| - 1] in steps && !Destroys(steps[|steps| - 1]);
      OnlyFailuresLose(cfg, t, steps[|steps| - 1]);
    }
    if forall w <- s.workers :: Cell(w.deltas, r, ev) == 0 {
      SumZero(s.workers, HeldBy(r, ev));
      SumZero(s.sent, CarriedBy(r, ev));
    }
  }
}
