/** How often one signed pixel is counted over its whole lifetime: never more often than claims fit, one
    idempotency period apart, between its mint and the end of its validity. */
module PixelCount {
  import opened Options
  import opened Events
  import opened Redis
  import opened Protocol
  import opened Sums
  import opened Frames

  // --- Validity -----------------------------------------------------------------------------------

  /** A verified fetch was verified inside the pixel's validity. */
  ghost predicate TrackOk(cfg: Config, s: State, tr: Track) {
    tr.phase.Verified? ==>
      Signed(cfg, s, tr.px) && s.minted[tr.px.imp].at <= tr.phase.at <= s.now && tr.phase.at / 1000 <= tr.px.exp
  }

  ghost predicate Timely(cfg: Config, s: State) {
    && (forall imp <- s.minted :: s.minted[imp].at <= s.now)
    && (forall tr <- s.tracks :: TrackOk(cfg, s, tr))
  }

  /** Minted pixels stay as they are. */
  ghost predicate Remembers(s: State, s': State) {
    && s.now <= s'.now
    && forall imp <- s.minted :: imp in s'.minted && s'.minted[imp] == s.minted[imp]
  }

  lemma VastMints(cfg: Config, s: State, i: nat, v: VastStep)
    requires VastEnabled(cfg, s, i, v)
    ensures var m := VastNext(cfg, s, i, v).minted;
            || m == s.minted
            || (v.Render? && v.imp !in s.minted && m == s.minted[v.imp := Mint(s.vasts[i].phase.c.ad, s.now)])
  {
    var q := s.vasts[i];
    match v
    case Consume(r) =>
      var (d, n) := FreqScript(s.db, FreqCount(q.user, q.phase.c.ad), q.phase.c.freqCap, q.phase.c.window, s.now);
      ConsumedMints(s, q, q.phase.c, r.Ok?, d, n);
    case Reserve(r) =>
      var (d, n) := BudgetScript(s.db, ImpsTotal(q.phase.c.campaign), cfg.Cap(q.phase.c.campaign));
      ReservedMints(s, q, q.phase.c, r.Ok?, d, n);
    case _ =>
  }

  lemma ConsumedMints(s: State, q: Vast, c: Cand, told: bool, d: Db, n: int)
    ensures Consumed(s, q, c, told, d, n).minted == s.minted
  {
  }

  lemma ReservedMints(s: State, q: Vast, c: Cand, told: bool, d: Db, n: int)
    ensures Reserved(s, q, c, told, d, n).minted == s.minted
  {
  }

  lemma StepRemembers(cfg: Config, s: State, step: Step)
    requires Enabled(cfg, s, step)
    ensures Remembers(s, Next(cfg, s, step))
  {
    match step
    case VastOf(i, v) => VastMints(cfg, s, i, v);
    case WorkOf(i, w) => WorkLeaves(cfg, s, i, w);
    case Env(e) => if !e.FetchPixel? && !e.RequestAd? { EnvLeaves(cfg, s, e); }
    case _ =>
  }

  lemma StaysOk(cfg: Config, s: State, s': State, tr: Track)
    requires TrackOk(cfg, s, tr) && Remembers(s, s')
    ensures TrackOk(cfg, s', tr)
  {
  }

  lemma VerifiesOk(cfg: Config, s: State, i: nat, t: TrackStep)
    requires TrackEnabled(cfg, s, i, t) && Timely(cfg, s)
    ensures TrackOk(cfg, s, s.tracks[i].(phase := TrackEffectOf(cfg, s, s.tracks[i], t).phase))
  {
  }

  lemma StepTimely(cfg: Config, s: State, step: Step)
    requires Enabled(cfg, s, step) && Timely(cfg, s)
    ensures Timely(cfg, Next(cfg, s, step))
  {
    var s' := Next(cfg, s, step);
    StepRemembers(cfg, s, step);
    if step.TrackOf? {
      VerifiesOk(cfg, s, step.i, step.t);
      StaysOk(cfg, s, s', s'.tracks[step.i]);
    } else if step.VastOf? {
      VastMints(cfg, s, step.i, step.v);
    }
    forall tr | tr in s'.tracks ensures TrackOk(cfg, s', tr) {
      if tr in s.tracks {
        StaysOk(cfg, s, s', tr);
      }
    }
  }

  // --- Claims -------------------------------------------------------------------------------------

  ghost predicate Spaced(log: seq<nat>) {
    forall i | 0 < i < |log| :: log[i - 1] + IDEMPOTENCY_TTL <= log[i]
  }

  /** The claim key mirrors the last claim for at least one idempotency period. */
  ghost predicate Mirrors(db: Db, k: Key, log: seq<nat>, now: int) {
    if k in db then log != [] && db[k].expires == Some(log[|log| - 1] + IDEMPOTENCY_TTL)
    else log != [] ==> log[|log| - 1] + IDEMPOTENCY_TTL <= now
  }

  /** Claims happen between the mint and the end of validity. */
  ghost predicate InLife(cfg: Config, s: State, imp: Id, log: seq<nat>) {
    && (log != [] ==> imp in s.minted)
    && forall t <- log :: s.minted[imp].at <= t <= 1000 * cfg.Expiry(s.minted[imp].at) + 999 + cfg.lag
  }

  ghost predicate ClaimsOk(cfg: Config, s: State, imp: Id, ev: Event) {
    var log := LogAt(s.hist.claims, (imp, ev));
    Spaced(log) && Mirrors(s.db, Claim(imp, ev), log, s.now) && InLife(cfg, s, imp, log)
  }

  /** A fetch that holds a claim and has not counted it yet. */
  function PendingFor(imp: Id, ev: Event): Track -> nat {
    (tr: Track) => if tr.px.imp == imp && tr.px.ev == ev && (tr.phase.Claimed? || tr.phase.Dated?) then 1 else 0
  }

  ghost predicate CountsOk(s: State, imp: Id, ev: Event) {
    NatAt(s.hist.counted, (imp, ev)) + SumBy(s.tracks, PendingFor(imp, ev)) <= |LogAt(s.hist.claims, (imp, ev))|
  }

  /** Another key's turn, or this key's expiry. */
  lemma ClaimsStay(cfg: Config, s: State, s': State, k: Key, imp: Id, ev: Event)
    requires ClaimsOk(cfg, s, imp, ev) && Remembers(s, s') && OnlyAt(s.db, s'.db, k)
    requires s'.hist.claims == s.hist.claims
    requires || k != Claim(imp, ev) || s'.db == s.db
             || (k in s.db && k !in s'.db && s.db[k].expires.Some? && s.db[k].expires.value <= s'.now)
    ensures ClaimsOk(cfg, s', imp, ev)
  {
  }

  /** A fresh claim. */
  lemma NewClaim(cfg: Config, s: State, tr: Track, log: seq<nat>)
    requires tr.phase.Verified? && s.now <= tr.phase.at + cfg.lag && Timely(cfg, s) && TrackOk(cfg, s, tr)
    requires var k := Claim(tr.px.imp, tr.px.ev);
             k !in s.db && Spaced(log) && Mirrors(s.db, k, log, s.now) && InLife(cfg, s, tr.px.imp, log)
    ensures Spaced(log + [s.now]) && InLife(cfg, s, tr.px.imp, log + [s.now])
  {
  }

  lemma ClaimLog(s: State, px: Pixel, r: Reply, imp: Id, ev: Event)
    ensures var e, log, k := ClaimEffect(s, px, r), LogAt(s.hist.claims, (imp, ev)), Claim(px.imp, px.ev);
            if r.Executes() && k !in s.db && px.imp == imp && px.ev == ev then
              LogAt(e.claims, (imp, ev)) == log + [s.now]
              && k in e.db && e.db[k].expires == Some(s.now + IDEMPOTENCY_TTL)
            else
              LogAt(e.claims, (imp, ev)) == log && OnlyAt(s.db, e.db, k) && (k in s.db ==> e.db == s.db)
              && (!r.Executes() ==> e.db == s.db)
  {
  }

  lemma ClaimStep(cfg: Config, s: State, i: nat, r: Reply, imp: Id, ev: Event)
    requires TrackEnabled(cfg, s, i, ClaimEvent(r)) && Timely(cfg, s) && ClaimsOk(cfg, s, imp, ev)
    ensures ClaimsOk(cfg, TrackNext(cfg, s, i, ClaimEvent(r)), imp, ev)
  {
    var tr := s.tracks[i];
    assert TrackOk(cfg, s, tr);
    ClaimLog(s, tr.px, r, imp, ev);
    if r.Executes() && Claim(tr.px.imp, tr.px.ev) !in s.db && tr.px.imp == imp && tr.px.ev == ev {
      NewClaim(cfg, s, tr, LogAt(s.hist.claims, (imp, ev)));
    }
  }

  lemma CountClaims(s: State, px: Pixel, day: nat, r: Reply)
    ensures CountEffect(s, px, day, r).claims == s.hist.claims
  {
  }

  lemma OnlyClaimsClaim(cfg: Config, s: State, step: Step)
    requires Enabled(cfg, s, step) && !(step.TrackOf? && step.t.ClaimEvent?)
    ensures Next(cfg, s, step).hist.claims == s.hist.claims
  {
    match step
    case TrackOf(i, Count(r)) => CountClaims(s, s.tracks[i].px, s.tracks[i].phase.day, r);
    case WorkOf(i, w) => WorkLeaves(cfg, s, i, w);
    case Env(e) => if !e.FetchPixel? && !e.RequestAd? { EnvLeaves(cfg, s, e); }
    case _ =>
  }

  lemma StepClaims(cfg: Config, s: State, step: Step, imp: Id, ev: Event)
    requires Enabled(cfg, s, step) && Timely(cfg, s) && ClaimsOk(cfg, s, imp, ev)
    ensures ClaimsOk(cfg, Next(cfg, s, step), imp, ev)
  {
    if step.TrackOf? && step.t.ClaimEvent? {
      ClaimStep(cfg, s, step.i, step.t.r, imp, ev);
    } else {
      OnlyClaimsClaim(cfg, s, step);
      StepRemembers(cfg, s, step);
      OneKey(cfg, s, step);
      ClaimsStay(cfg, s, Next(cfg, s, step), Touched(cfg, s, step), imp, ev);
    }
  }

  /** A claim allows one count, and a count uses one up. */
  ghost predicate EffectCounts(s: State, tr: Track, e: TrackEffect, imp: Id, ev: Event) {
    NatAt(e.counted, (imp, ev)) + PendingFor(imp, ev)(tr.(phase := e.phase)) + |LogAt(s.hist.claims, (imp, ev))| <=
    NatAt(s.hist.counted, (imp, ev)) + PendingFor(imp, ev)(tr) + |LogAt(e.claims, (imp, ev))|
  }

  lemma ClaimCounts(s: State, tr: Track, r: Reply, imp: Id, ev: Event)
    requires tr.phase.Verified?
    ensures EffectCounts(s, tr, ClaimEffect(s, tr.px, r), imp, ev)
  {
  }

  lemma CountCounts(s: State, tr: Track, r: Reply, imp: Id, ev: Event)
    requires tr.phase.Dated?
    ensures EffectCounts(s, tr, CountEffect(s, tr.px, tr.phase.day, r), imp, ev)
  {
  }

  lemma TrackCounts(cfg: Config, s: State, i: nat, t: TrackStep, imp: Id, ev: Event)
    requires TrackEnabled(cfg, s, i, t) && CountsOk(s, imp, ev)
    ensures CountsOk(TrackNext(cfg, s, i, t), imp, ev)
  {
    var tr := s.tracks[i];
    var e := TrackEffectOf(cfg, s, tr, t);
    match t {
      case ClaimEvent(r) => ClaimCounts(s, tr, r, imp, ev);
      case Count(r) => CountCounts(s, tr, r, imp, ev);
      case _ =>
    }
    assert EffectCounts(s, tr, e, imp, ev);
    SumUpdate(s.tracks, i, tr.(phase := e.phase), PendingFor(imp, ev));
  }

  lemma CountsStay(s: State, s': State, imp: Id, ev: Event)
    requires CountsOk(s, imp, ev)
    requires s'.tracks == s.tracks && s'.hist.claims == s.hist.claims && s'.hist.counted == s.hist.counted
    ensures CountsOk(s', imp, ev)
  {
  }

  lemma StepCounts(cfg: Config, s: State, step: Step, imp: Id, ev: Event)
    requires Enabled(cfg, s, step) && CountsOk(s, imp, ev)
    ensures CountsOk(Next(cfg, s, step), imp, ev)
  {
    match step
    case TrackOf(i, t) => TrackCounts(cfg, s, i, t, imp, ev);
    case VastOf(_, _) => CountsStay(s, Next(cfg, s, step), imp, ev);
    case WorkOf(i, w) =>
      WorkLeaves(cfg, s, i, w);
      CountsStay(s, WorkNext(cfg, s, i, w), imp, ev);
    case Env(e) => EnvCounts(cfg, s, e, imp, ev);
  }

  lemma EnvCounts(cfg: Config, s: State, e: EnvStep, imp: Id, ev: Event)
    requires EnvEnabled(cfg, s, e) && CountsOk(s, imp, ev)
    ensures CountsOk(EnvNext(s, e), imp, ev)
  {
    match e
    case FetchPixel(px) => SumAppend(s.tracks, Track(px, Fetched), PendingFor(imp, ev));
    case RequestAd(_) =>
    case _ =>
      EnvLeaves(cfg, s, e);
      CountsStay(s, EnvNext(s, e), imp, ev);
  }

  lemma {:induction false} RunClaims(cfg: Config, steps: seq<Step>, s: State, imp: Id, ev: Event)
    requires After(cfg, INIT, steps) == Some(s)
    ensures Timely(cfg, s) && ClaimsOk(cfg, s, imp, ev) && CountsOk(s, imp, ev)
  {
    if steps != [] {
      var n := |steps| - 1;
      var t := After(cfg, INIT, steps[..n]).value;
      RunClaims(cfg, steps[..n], t, imp, ev);
      StepTimely(cfg, t, steps[n]);
      StepClaims(cfg, t, steps[n], imp, ev);
      StepCounts(cfg, t, steps[n], imp, ev);
    }
  }

  lemma {:induction false} SpacedSpan(log: seq<nat>)
    requires Spaced(log) && log != []
    ensures log[0] + (|log| - 1) * IDEMPOTENCY_TTL <= log[|log| - 1]
  {
    if |log| > 1 {
      SpacedSpan(log[..|log| - 1]);
    }
  }

  /** The most claims that fit into one pixel's life. The 999 is the sub-second part of the last valid second. */
  function MaxCounts(cfg: Config): nat {
    (cfg.tokenTtl + 999 + cfg.lag) / IDEMPOTENCY_TTL + 1
  }

  /** In every run one (imp_id, event) pixel is counted at most as often as idempotency periods fit, and once more. */
  lemma PixelBound(cfg: Config, steps: seq<Step>, s: State, imp: Id, ev: Event)
    requires After(cfg, INIT, steps) == Some(s)
    ensures NatAt(s.hist.counted, (imp, ev)) <= (cfg.tokenTtl + 999 + cfg.lag) / 86_400_000 + 1
  {
    RunClaims(cfg, steps, s, imp, ev);
    var log := LogAt(s.hist.claims, (imp, ev));
    if log != [] {
      SpacedSpan(log);
      assert log[0] in log && log[|log| - 1] in log;
      var span := cfg.tokenTtl + 999 + cfg.lag;
      assert (|log| - 1) * IDEMPOTENCY_TTL <= span;
    }
  }

  /** Claims of one pixel are at least 24 hours apart, and within its life. */
  lemma ClaimsApart(cfg: Config, steps: seq<Step>, s: State, imp: Id, ev: Event)
    requires After(cfg, INIT, steps) == Some(s)
    ensures var log := LogAt(s.hist.claims, (imp, ev));
            && NatAt(s.hist.counted, (imp, ev)) <= |log|
            && (forall i | 0 < i < |log| :: log[i] >= log[i - 1] + 86_400_000)
            && forall t <- log ::
                 && imp in s.minted && s.minted[imp].at <= t
                 && t <= (s.minted[imp].at + cfg.tokenTtl) / 1000 * 1000 + 999 + cfg.lag
  {
    RunClaims(cfg, steps, s, imp, ev);
  }

  /** With a validity in whole seconds and verification and claim at one clock reading: ttl / IdempotencyTTL + 1. */
  lemma WholeSecondBound(cfg: Config, steps: seq<Step>, s: State, imp: Id, ev: Event)
    requires After(cfg, INIT, steps) == Some(s) && cfg.tokenTtl % 1000 == 0 && cfg.lag == 0
    ensures NatAt(s.hist.counted, (imp, ev)) <= cfg.tokenTtl / 86_400_000 + 1
  {
    PixelBound(cfg, steps, s, imp, ev);
    WholeSeconds(cfg.tokenTtl);
  }

  lemma WholeSeconds(ttl: nat)
    requires ttl % 1000 == 0
    ensures (ttl + 999) / 86_400_000 == ttl / 86_400_000
  {
  }
}
