/** The bound of module PixelCount is reached: a run for every configuration that counts one pixel exactly that
    often. So a pixel is counted at most once exactly when its validity, the rest of its last second and the
    delay before the claim stay below the idempotency period. */
module PixelTight {
  import opened Options
  import opened Events
  import opened Redis
  import opened Protocol
  import opened Runs
  import opened PixelCount

  const AD: Id := "ad"
  const IMP: Id := "imp"
  const CAND := Cand(AD, "campaign", 0, 0)

  /** A mint time such that the validity ends on a whole second. */
  function MintTime(cfg: Config): (at: nat)
    ensures (at + cfg.tokenTtl) % 1000 == 0 && at >= 1000
  {
    1000 + (1000 - cfg.tokenTtl % 1000) % 1000
  }

  function Fired(cfg: Config, ev: Event): Pixel {
    Pixel(AD, IMP, ev, cfg.Expiry(MintTime(cfg)))
  }

  /** The pixel is minted and was counted n times, once per idempotency period, the last time just now. */
  ghost predicate Counted(cfg: Config, ev: Event, s: State, n: nat) {
    var at, k := MintTime(cfg), Claim(IMP, ev);
    && IMP in s.minted && s.minted[IMP] == Mint(AD, at)
    && NatAt(s.hist.counted, (IMP, ev)) == n
    && if n == 0 then k !in s.db && s.now == at
       else k in s.db && s.now == at + (n - 1) * IDEMPOTENCY_TTL && s.db[k].expires == Some(s.now + IDEMPOTENCY_TTL)
  }

  lemma Minted(cfg: Config, ev: Event) returns (steps: seq<Step>, s: State)
    ensures Reached(cfg, steps, s) && Counted(cfg, ev, s, 0)
  {
    steps, s := [], INIT;
    steps, s := Do(cfg, steps, s, Env(Advance(MintTime(cfg))));
    steps, s := Do(cfg, steps, s, Env(RequestAd("user")));
    steps, s := Do(cfg, steps, s, VastOf(0, Pick(CAND)));
    assert s.db == map[] && s.vasts == [Vast("user", 1, BudgetCall(CAND, false))];
    steps, s := Do(cfg, steps, s, VastOf(0, Reserve(Ok)));
    assert s.vasts[0].phase == Holding(CAND);
    steps, s := Do(cfg, steps, s, VastOf(0, Render(true, IMP)));
  }

  /** The m fetches from i on are of the pixel and were verified at v; the claim key is as it was after n counts. */
  ghost predicate Refired(cfg: Config, ev: Event, s: State, n: nat, i: nat, m: nat, v: nat) {
    var at, k := MintTime(cfg), Claim(IMP, ev);
    && i + m <= |s.tracks| && (forall j | i <= j < i + m :: s.tracks[j] == Track(Fired(cfg, ev), Verified(v)))
    && v <= s.now <= at + n * IDEMPOTENCY_TTL
    && IMP in s.minted && s.minted[IMP] == Mint(AD, at)
    && NatAt(s.hist.counted, (IMP, ev)) == n
    && if n == 0 then k !in s.db else k in s.db && s.db[k].expires == Some(at + n * IDEMPOTENCY_TTL)
  }

  /** m fetches at v, inside the validity. */
  lemma {:induction false} Refire(cfg: Config, ev: Event, steps: seq<Step>, s: State, n: nat, m: nat, v: nat)
    returns (steps': seq<Step>, s': State, i: nat)
    requires Reached(cfg, steps, s) && Counted(cfg, ev, s, n)
    requires s.now <= v <= MintTime(cfg) + cfg.tokenTtl + 999 && v <= MintTime(cfg) + n * IDEMPOTENCY_TTL
    ensures Reached(cfg, steps', s') && Refired(cfg, ev, s', n, i, m, v) && i + m == |s'.tracks| && s'.now == v
  {
    if m == 0 {
      i := |s.tracks|;
      steps', s' := Do(cfg, steps, s, Env(Advance(v - s.now)));
    } else {
      steps', s', i := Refire(cfg, ev, steps, s, n, m - 1, v);
      steps', s' := Do(cfg, steps', s', Env(FetchPixel(Fired(cfg, ev))));
      steps', s' := Do(cfg, steps', s', TrackOf(i + m - 1, Verify));
    }
  }

  lemma Expired(cfg: Config, ev: Event, steps: seq<Step>, s: State, n: nat, i: nat, m: nat, v: nat)
    returns (steps': seq<Step>, s': State)
    requires Reached(cfg, steps, s) && Refired(cfg, ev, s, n, i, m, v)
    ensures Reached(cfg, steps', s') && s'.now == MintTime(cfg) + n * IDEMPOTENCY_TTL
    ensures Claim(IMP, ev) !in s'.db
    ensures s'.tracks == s.tracks && s'.minted == s.minted && s'.hist == s.hist
  {
    steps', s' := Do(cfg, steps, s, Env(Advance(MintTime(cfg) + n * IDEMPOTENCY_TTL - s.now)));
    if n > 0 {
      steps', s' := Do(cfg, steps', s', Env(DropKey(Claim(IMP, ev))));
    }
  }

  /** The first of the verified fetches claims as soon as the last claim is gone. */
  lemma Reclaim(cfg: Config, ev: Event, steps: seq<Step>, s: State, n: nat, i: nat, m: nat, v: nat)
    returns (steps': seq<Step>, s': State)
    requires Reached(cfg, steps, s) && Refired(cfg, ev, s, n, i, m, v) && m > 0
    requires MintTime(cfg) + n * IDEMPOTENCY_TTL <= v + cfg.lag
    ensures Reached(cfg, steps', s') && s'.now == MintTime(cfg) + n * IDEMPOTENCY_TTL
    ensures s'.tracks == s.tracks[i := Track(Fired(cfg, ev), Claimed)] && s'.minted == s.minted
    ensures s'.hist.counted == s.hist.counted
    ensures var k := Claim(IMP, ev); k in s'.db && s'.db[k].expires == Some(s'.now + IDEMPOTENCY_TTL)
  {
    steps', s' := Expired(cfg, ev, steps, s, n, i, m, v);
    steps', s' := Do(cfg, steps', s', TrackOf(i, ClaimEvent(Ok)));
  }

  /** Then it counts. */
  lemma CountOnce(cfg: Config, ev: Event, steps: seq<Step>, s: State, i: nat) returns (steps': seq<Step>, s': State)
    requires Reached(cfg, steps, s) && i < |s.tracks| && s.tracks[i] == Track(Fired(cfg, ev), Claimed)
    ensures Reached(cfg, steps', s') && s'.now == s.now && s'.minted == s.minted
    ensures s'.tracks == s.tracks[i := Track(Fired(cfg, ev), Finished)]
    ensures NatAt(s'.hist.counted, (IMP, ev)) == NatAt(s.hist.counted, (IMP, ev)) + 1
    ensures var k := Claim(IMP, ev); k in s.db ==> k in s'.db && s'.db[k] == s.db[k]
  {
    steps', s' := Do(cfg, steps, s, TrackOf(i, ReadDate));
    steps', s' := Do(cfg, steps', s', TrackOf(i, Count(Ok)));
  }

  lemma Recount(cfg: Config, ev: Event, steps: seq<Step>, s: State, n: nat, i: nat, m: nat, v: nat)
    returns (steps': seq<Step>, s': State)
    requires Reached(cfg, steps, s) && Refired(cfg, ev, s, n, i, m, v) && m > 0
    requires MintTime(cfg) + n * IDEMPOTENCY_TTL <= v + cfg.lag
    ensures Reached(cfg, steps', s') && Counted(cfg, ev, s', n + 1) && Refired(cfg, ev, s', n + 1, i + 1, m - 1, v)
  {
    steps', s' := Reclaim(cfg, ev, steps, s, n, i, m, v);
    steps', s' := CountOnce(cfg, ev, steps', s', i);
  }

  /** Counts at each period as long as the pixel is valid. */
  lemma {:induction false} WhileValid(cfg: Config, ev: Event, n: nat) returns (steps: seq<Step>, s: State)
    requires n > 0 ==> (n - 1) * IDEMPOTENCY_TTL <= cfg.tokenTtl + 999
    ensures Reached(cfg, steps, s) && Counted(cfg, ev, s, n)
  {
    if n == 0 {
      steps, s := Minted(cfg, ev);
    } else {
      steps, s := WhileValid(cfg, ev, n - 1);
      var v, i := MintTime(cfg) + (n - 1) * IDEMPOTENCY_TTL, 0;
      steps, s, i := Refire(cfg, ev, steps, s, n - 1, 1, v);
      steps, s := Recount(cfg, ev, steps, s, n - 1, i, 1, v);
    }
  }

  /** Fetches verified in the last valid millisecond claim one after the other, each a period later. */
  lemma {:induction false} AfterValid(cfg: Config, ev: Event, steps: seq<Step>, s: State, n: nat, i: nat, m: nat,
                                      v: nat)
    returns (steps': seq<Step>, s': State)
    requires Reached(cfg, steps, s) && Refired(cfg, ev, s, n, i, m, v)
    requires m > 0 ==> MintTime(cfg) + (n + m - 1) * IDEMPOTENCY_TTL <= v + cfg.lag
    ensures Reached(cfg, steps', s') && NatAt(s'.hist.counted, (IMP, ev)) == n + m
    decreases m
  {
    steps', s' := steps, s;
    if m > 0 {
      steps', s' := Recount(cfg, ev, steps, s, n, i, m, v);
      steps', s' := AfterValid(cfg, ev, steps', s', n + 1, i + 1, m - 1, v);
    }
  }

  /** For every configuration some run counts one pixel MaxCounts times. */
  lemma BoundIsReached(cfg: Config, ev: Event) returns (steps: seq<Step>, s: State)
    ensures After(cfg, INIT, steps) == Some(s)
    ensures NatAt(s.hist.counted, (IMP, ev)) == (cfg.tokenTtl + 999 + cfg.lag) / 86_400_000 + 1
  {
    var last := cfg.tokenTtl + 999;
    var n, i := last / IDEMPOTENCY_TTL + 1, 0;
    steps, s := WhileValid(cfg, ev, n);
    steps, s, i := Refire(cfg, ev, steps, s, n, MaxCounts(cfg) - n, MintTime(cfg) + last);
    steps, s := AfterValid(cfg, ev, steps, s, n, i, MaxCounts(cfg) - n, MintTime(cfg) + last);
  }

  /** No pixel of an event is ever counted twice exactly when its whole life fits into one idempotency period of 24
      hours. Equal TTLs, as configured by default, do not suffice. */
  lemma AtMostOnceIff(cfg: Config, ev: Event)
    ensures (forall steps, imp | After(cfg, INIT, steps).Some? ::
               NatAt(After(cfg, INIT, steps).value.hist.counted, (imp, ev)) <= 1)
            <==> cfg.tokenTtl + 999 + cfg.lag < 24 * 60 * 60 * 1000
  {
    if cfg.tokenTtl + 999 + cfg.lag < 24 * 60 * 60 * 1000 {
      forall steps, imp | After(cfg, INIT, steps).Some?
        ensures NatAt(After(cfg, INIT, steps).value.hist.counted, (imp, ev)) <= 1
      {
        PixelBound(cfg, steps, After(cfg, INIT, steps).value, imp, ev);
      }
    } else {
      var steps, s := BoundIsReached(cfg, ev);
      assert After(cfg, INIT, steps).Some?;
      assert NatAt(After(cfg, INIT, steps).value.hist.counted, (IMP, ev)) > 1;
    }
  }
}
