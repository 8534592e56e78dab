/** Every step of the protocol touches at most one key of Redis. */
module Frames {
  import opened Redis
  import opened Protocol

  /** Two stores agree on everything but k. */
  ghost predicate OnlyAt(db: Db, d: Db, k: Key) {
    && (forall l :: l != k ==> (l in d <==> l in db))
    && (forall l <- d :: l != k ==> d[l] == db[l])
  }

  /** The key a step may touch; WorkerLock also stands for none. */
  function Touched(cfg: Config, s: State, step: Step): (k: Key)
    requires Enabled(cfg, s, step)
  {
    match step
    case Env(DropKey(k)) => k
    case Env(Land(i)) =>
      var x := s.sent[i];
      if x.SentDrain? then Counter(x.row.ad, x.ev, x.row.day) else WorkerLock
    case TrackOf(i, ClaimEvent(_)) => Claim(s.tracks[i].px.imp, s.tracks[i].px.ev)
    case TrackOf(i, Count(_)) => Counter(s.tracks[i].px.ad, s.tracks[i].px.ev, s.tracks[i].phase.day)
    case VastOf(i, Consume(_)) => FreqCount(s.vasts[i].user, s.vasts[i].phase.c.ad)
    case VastOf(i, Reserve(_)) => ImpsTotal(s.vasts[i].phase.c.campaign)
    case WorkOf(i, Drain(_)) =>
      var cell := s.workers[i].phase.todo[0];
      Counter(cell.0.ad, cell.1, cell.0.day)
    case _ => WorkerLock
  }

  lemma ScriptsOnlyAt(db: Db, k: Key, cap: int, window: int, now: int)
    ensures OnlyAt(db, BudgetScript(db, k, cap).0, k)
    ensures OnlyAt(db, FreqScript(db, k, cap, window, now).0, k)
  {
  }

  lemma OneKey(cfg: Config, s: State, step: Step)
    requires Enabled(cfg, s, step)
    ensures OnlyAt(s.db, Next(cfg, s, step).db, Touched(cfg, s, step))
  {
    match step
    case Env(e) => EnvOneKey(cfg, s, e);
    case TrackOf(i, t) => TrackOneKey(cfg, s, i, t);
    case VastOf(i, v) => VastOneKey(cfg, s, i, v);
    case WorkOf(i, w) => WorkOneKey(cfg, s, i, w);
  }

  lemma EnvOneKey(cfg: Config, s: State, e: EnvStep)
    requires EnvEnabled(cfg, s, e)
    ensures OnlyAt(s.db, EnvNext(s, e).db, Touched(cfg, s, Env(e)))
  {
  }

  lemma TrackOneKey(cfg: Config, s: State, i: nat, t: TrackStep)
    requires TrackEnabled(cfg, s, i, t)
    ensures OnlyAt(s.db, TrackNext(cfg, s, i, t).db, Touched(cfg, s, TrackOf(i, t)))
  {
  }

  lemma VastOneKey(cfg: Config, s: State, i: nat, v: VastStep)
    requires VastEnabled(cfg, s, i, v)
    ensures OnlyAt(s.db, VastNext(cfg, s, i, v).db, Touched(cfg, s, VastOf(i, v)))
  {
    match v
    case Consume(_) =>
      var c := s.vasts[i].phase.c;
      ScriptsOnlyAt(s.db, FreqCount(s.vasts[i].user, c.ad), c.freqCap, c.window, s.now);
    case Reserve(_) =>
      var c := s.vasts[i].phase.c;
      ScriptsOnlyAt(s.db, ImpsTotal(c.campaign), cfg.Cap(c.campaign), 0, 0);
    case _ =>
  }

  /** Requests leave time, workers and what is theirs alone. */
  lemma RequestsLeave(cfg: Config, s: State, step: Step)
    requires Enabled(cfg, s, step) && (step.TrackOf? || step.VastOf?)
    ensures var s' := Next(cfg, s, step);
            && s'.now == s.now && s'.workers == s.workers && s'.releases == s.releases && s'.sent == s.sent
            && s'.stats == s.stats && s'.completed == s.completed && s'.hist.lost == s.hist.lost
  {
  }

  /** Requests, pixels and every record but that of lost counts are the same. */
  ghost predicate SameRequests(s: State, s': State) {
    && s'.minted == s.minted && s'.tracks == s.tracks && s'.vasts == s.vasts
    && s'.hist == s.hist.(lost := s'.hist.lost)
  }

  lemma EnvLeaves(cfg: Config, s: State, e: EnvStep)
    requires EnvEnabled(cfg, s, e) && !e.FetchPixel? && !e.RequestAd?
    ensures SameRequests(s, EnvNext(s, e)) && s.now <= EnvNext(s, e).now
  {
    if e.Land? {
      LandedLeaves(s, s.sent[e.i]);
    }
  }

  lemma LandedLeaves(s: State, x: Sent)
    ensures SameRequests(s, Landed(s, x)) && s.now == Landed(s, x).now
  {
  }

  lemma WorkLeaves(cfg: Config, s: State, i: nat, t: WorkStep)
    requires WorkEnabled(cfg, s, i, t)
    ensures SameRequests(s, WorkNext(cfg, s, i, t)) && s.now == WorkNext(cfg, s, i, t).now
  {
  }

  /** Worker steps that only decide, wait, or work on the lock. */
  predicate Quiet(t: WorkStep) {
    !t.Drain? && !t.Upsert? && !t.Timeout? && !t.Crash?
  }

  /** The effect touches at most the lock in Redis, and no counts anywhere. */
  ghost predicate Local(s: State, w: Worker, e: WorkEffect) {
    && OnlyAt(s.db, e.db, WorkerLock)
    && e.worker.deltas == w.deltas && e.stats == s.stats && e.lost == s.hist.lost
    && (e.sent == s.sent || exists x :: Countless(x) && e.sent == s.sent + [x])
  }

  /** A command in flight that carries no counts and will take none. */
  predicate Countless(x: Sent) {
    !x.SentDrain? && !x.SentUpsert?
  }

  lemma AcquireLocal(cfg: Config, s: State, w: Worker, r: Reply)
    ensures Local(s, w, AcquireEffect(cfg, s, w, r))
  {
  }

  lemma QuietLocal(cfg: Config, s: State, i: nat, t: WorkStep)
    requires WorkEnabled(cfg, s, i, t) && Quiet(t)
    ensures Local(s, s.workers[i], WorkEffectOf(cfg, s, s.workers[i], t))
  {
    match t
    case Acquire(r) => AcquireLocal(cfg, s, s.workers[i], r);
    case Release(_) => assert OnlyAt(s.db, ReleaseScript(s.db, s.workers[i].id), WorkerLock);
    case _ =>
  }

  lemma WorkOneKey(cfg: Config, s: State, i: nat, t: WorkStep)
    requires WorkEnabled(cfg, s, i, t)
    ensures OnlyAt(s.db, WorkNext(cfg, s, i, t).db, Touched(cfg, s, WorkOf(i, t)))
  {
    if Quiet(t) {
      QuietLocal(cfg, s, i, t);
    }
  }
}
