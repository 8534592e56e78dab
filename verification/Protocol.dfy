/** The counter protocol as one transition system: Redis, Postgres, a clock, any number of /vast and /track
    requests in flight and any number of worker processes. A step is one atomic command, one local decision,
    or one failure; every interleaving of enabled steps is a run. Times are in milliseconds. */
module Protocol {
  import opened Options
  import opened Events
  import opened Redis

  const IDEMPOTENCY_TTL := 86_400_000
  const LOCK_TTL := 60_000
  const TICK_TIMEOUT := 45_000
  const MS_PER_DAY := 86_400_000

  /** limits: the budget of each capped campaign. tokenTtl: the validity of a pixel URL. lag: the longest time
      between verifying a pixel and its claim reaching Redis. maxCap, minWindow: bounds of all frequency rules.
      useLock: workers wait for the lock. releaseLag: how long after its tick's deadline a release may land. */
  datatype Config = Config(limits: map<Id, nat>, tokenTtl: nat, lag: nat, maxCap: nat, minWindow: nat,
                           useLock: bool, releaseLag: nat)
  {
    /** The cap handlers pass to the budget script; 0 is unlimited. */
    function Cap(campaign: Id): nat {
      if campaign in limits then limits[campaign] else 0
    }

    /** exp = now.Add(ttl).Unix() */
    function Expiry(mintedAt: nat): nat {
      (mintedAt + tokenTtl) / 1000
    }
  }

  /** How a command ends: executed and answered; executed but the reply was lost; never executed; NOSCRIPT
      (not executed, the client falls back to EVAL); or sent, given up on, and executed some time later. */
  datatype Reply = Ok | Lost | Failed | NoScript | Late
  {
    predicate Executes() { Ok? || Lost? }
  }

  // --- /track -------------------------------------------------------------------------------------

  datatype Pixel = Pixel(ad: Id, imp: Id, ev: Event, exp: nat)

  datatype Mint = Mint(ad: Id, at: nat)

  datatype TrackPhase = Fetched | Verified(at: nat) | Claimed | Dated(day: nat) | Finished

  datatype Track = Track(px: Pixel, phase: TrackPhase)

  // --- /vast --------------------------------------------------------------------------------------

  /** A candidate as read off a possibly stale snapshot. */
  datatype Cand = Cand(ad: Id, campaign: Id, freqCap: int, window: int)

  /** eval: EVALSHA was answered NOSCRIPT and EVAL is next. */
  datatype VastPhase =
    | Choosing
    | FreqCall(c: Cand, eval: bool)
    | BudgetCall(c: Cand, eval: bool)
    | Holding(c: Cand)
    | Ended

  datatype Vast = Vast(user: Id, attempts: nat, phase: VastPhase)

  // --- The worker ---------------------------------------------------------------------------------

  datatype WorkPhase =
    | Idle
    | Acquiring
    | Loading
    | Draining(todo: seq<(Row, Event)>)
    | Upserting
    | Reconciling(open: set<Id>)
    | Pausing(c: Id, open: set<Id>)
    | Releasing
    | Dead

  /** deltas: what this worker took out of Redis and has not written yet. */
  datatype Worker = Worker(id: Id, deadline: nat, phase: WorkPhase, deltas: Tally, campaigns: set<Id>)

  /** A worker's command that was sent and given up on: by an error, by the deadline, or by the worker's death. It
      may still take effect at any later time, or never; Gone then stands in its place. */
  datatype Sent =
    | SentAcquire(owner: Id)
    | SentDrain(row: Row, ev: Event)
    | SentUpsert(row: Row, counts: Counts)
    | SentPause(c: Id)
    | Gone

  // --- History ------------------------------------------------------------------------------------

  /** A life of one frequency key: created at start, kept at least until `until`; times are the accepted calls. */
  datatype Life = Life(start: nat, until: int, times: seq<nat>)

  /** What happened so far; no step reads it. */
  datatype History = History(
    incrs: Tally,                              // INCRs applied to the daily counters
    lost: Tally,                               // counts taken out of Redis that no row will receive
    claims: map<(Id, Event), seq<nat>>,        // when each pixel was claimed
    counted: map<(Id, Event), nat>,            // how often each pixel was counted
    lives: map<(Id, Id), seq<Life>>,           // accepted frequency calls per (user, ad)
    reserved: map<Id, nat>,                    // accepted budget scripts per campaign
    reported: map<Id, nat>,                    // of which a handler was told
    unreported: map<Id, nat>,                  // of which the reply was lost
    inlined: map<Id, nat>)                     // inline responses per campaign

  function NatAt<K>(m: map<K, nat>, k: K): nat {
    if k in m then m[k] else 0
  }

  function Plus1<K>(m: map<K, nat>, k: K): map<K, nat> {
    m[k := NatAt(m, k) + 1]
  }

  function PlusIf<K>(m: map<K, nat>, k: K, yes: bool): map<K, nat> {
    if yes then Plus1(m, k) else m
  }

  function LogAt<K, V>(m: map<K, seq<V>>, k: K): seq<V> {
    if k in m then m[k] else []
  }

  datatype State = State(
    now: nat,
    db: Db,
    stats: Tally,
    completed: set<Id>,
    minted: map<Id, Mint>,
    tracks: seq<Track>,
    vasts: seq<Vast>,
    workers: seq<Worker>,
    releases: set<(Id, nat)>,                  // release scripts sent but not executed, with their tick's deadline
    sent: seq<Sent>,                           // the workers' other commands in that situation
    hist: History)

  const EMPTY_HISTORY := History(map[], map[], map[], map[], map[], map[], map[], map[], map[])

  const INIT := State(0, map[], map[], {}, map[], [], [], [], {}, [], EMPTY_HISTORY)

  // --- Steps --------------------------------------------------------------------------------------

  datatype Step =
    | Env(e: EnvStep)
    | TrackOf(i: nat, t: TrackStep)
    | VastOf(i: nat, v: VastStep)
    | WorkOf(i: nat, w: WorkStep)

  datatype EnvStep =
    | Advance(ms: nat)
    | DropKey(k: Key)
    | FetchPixel(px: Pixel)
    | RequestAd(user: Id)
    | StartProcess(id: Id)
    | LandRelease(owner: Id, deadline: nat)
    | Land(i: nat)
    | Lose(i: nat)

  datatype TrackStep = Verify | ClaimEvent(r: Reply) | ReadDate | Count(r: Reply) | DropTrack

  datatype VastStep =
    | Pick(c: Cand)
    | Consume(r: Reply)
    | Reserve(r: Reply)
    | Render(ok: bool, imp: Id)
    | DropVast

  datatype WorkStep =
    | Begin
    | Acquire(r: Reply)
    | Load(ads: seq<(Id, Id)>)
    | Drain(r: Reply)
    | EndDrain
    | Upsert(row: Row, r: Reply)
    | EndUpsert
    | ReadBudget(c: Id, r: Reply)
    | Pause(r: Reply)
    | EndReconcile
    | Release(r: Reply)
    | Timeout
    | Crash

  // --- Environment --------------------------------------------------------------------------------

  predicate EnvEnabled(cfg: Config, s: State, e: EnvStep) {
    match e
    case Advance(_) => true
    case DropKey(k) => k in s.db && s.db[k].expires.Some? && s.now >= s.db[k].expires.value
    case FetchPixel(_) => true
    case RequestAd(_) => true
    case StartProcess(id) => forall w <- s.workers :: w.id != id
    case LandRelease(owner, deadline) => (owner, deadline) in s.releases && s.now <= deadline + cfg.releaseLag
    case Land(i) => i < |s.sent|
    case Lose(i) => i < |s.sent|
  }

  /** A worker's command takes effect after all. The counts of a GETDEL go to nobody. */
  function Landed(s: State, x: Sent): (s': State) {
    match x
    case SentAcquire(owner) => s.(db := SetNx(s.db, WorkerLock, Token(owner), s.now + LOCK_TTL))
    case SentDrain(row, ev) =>
      var n := NumAt(s.db, Counter(row.ad, ev, row.day));
      if n <= 0 then s
      else s.(db := Del(s.db, Counter(row.ad, ev, row.day)), hist := s.hist.(lost := Bump(s.hist.lost, row, ev, n)))
    case SentUpsert(row, counts) => s.(stats := AddRows(s.stats, map[row := counts]))
    case SentPause(c) => s.(completed := s.completed + {c})
    case Gone => s
  }

  /** It never does. */
  function Forgotten(s: State, x: Sent): (s': State) {
    if x.SentUpsert? then s.(hist := s.hist.(lost := AddRows(s.hist.lost, map[x.row := x.counts]))) else s
  }

  function EnvNext(s: State, e: EnvStep): (s': State)
    requires e.Land? || e.Lose? ==> e.i < |s.sent|
  {
    match e
    case Advance(ms) => s.(now := s.now + ms)
    case DropKey(k) => s.(db := Del(s.db, k))
    case FetchPixel(px) => s.(tracks := s.tracks + [Track(px, Fetched)])
    case RequestAd(user) => s.(vasts := s.vasts + [Vast(user, 0, Choosing)])
    case StartProcess(id) => s.(workers := s.workers + [Worker(id, 0, Idle, map[], {})])
    case LandRelease(owner, deadline) =>
      s.(db := ReleaseScript(s.db, owner), releases := s.releases - {(owner, deadline)})
    case Land(i) => Landed(s, s.sent[i]).(sent := s.sent[i := Gone])
    case Lose(i) => Forgotten(s, s.sent[i]).(sent := s.sent[i := Gone])
  }

  predicate Plain(r: Reply) {
    !r.NoScript? && !r.Late?
  }

  // --- /track steps -------------------------------------------------------------------------------

  /** The signature verifies exactly for minted pixels; see Tracking.PassesIffSigned. */
  predicate Signed(cfg: Config, s: State, px: Pixel) {
    px.imp in s.minted && px.ad == s.minted[px.imp].ad && px.exp == cfg.Expiry(s.minted[px.imp].at)
  }

  predicate TrackEnabled(cfg: Config, s: State, i: nat, t: TrackStep) {
    && i < |s.tracks|
    && var p := s.tracks[i].phase;
       match t
       case Verify => p.Fetched?
       case ClaimEvent(r) => p.Verified? && s.now <= p.at + cfg.lag && Plain(r)
       case ReadDate => p.Claimed?
       case Count(r) => p.Dated? && Plain(r)
       case DropTrack => true
  }

  /** What a /track step can change. */
  datatype TrackEffect = TrackEffect(phase: TrackPhase, db: Db, claims: map<(Id, Event), seq<nat>>, incrs: Tally,
                                     counted: map<(Id, Event), nat>)

  function TrackStays(s: State, p: TrackPhase): (e: TrackEffect) {
    TrackEffect(p, s.db, s.hist.claims, s.hist.incrs, s.hist.counted)
  }

  /** SETNX of the (imp_id, event) key; a lost reply leaves the event claimed but uncounted. */
  function ClaimEffect(s: State, px: Pixel, r: Reply): (e: TrackEffect) {
    var k := Claim(px.imp, px.ev);
    if !r.Executes() || k in s.db then TrackStays(s, Finished)
    else
      TrackStays(s, if r.Ok? then Claimed else Finished).(
        db := SetNx(s.db, k, Num(1), s.now + IDEMPOTENCY_TTL),
        claims := s.hist.claims[(px.imp, px.ev) := LogAt(s.hist.claims, (px.imp, px.ev)) + [s.now]])
  }

  /** INCR of the day's counter. */
  function CountEffect(s: State, px: Pixel, day: nat, r: Reply): (e: TrackEffect) {
    if !r.Executes() then TrackStays(s, Finished)
    else
      TrackStays(s, Finished).(
        db := Incr(s.db, Counter(px.ad, px.ev, day)),
        incrs := Bump(s.hist.incrs, Row(px.ad, day), px.ev, 1),
        counted := Plus1(s.hist.counted, (px.imp, px.ev)))
  }

  function TrackEffectOf(cfg: Config, s: State, tr: Track, t: TrackStep): (e: TrackEffect)
    requires t.Count? ==> tr.phase.Dated?
  {
    var px := tr.px;
    match t
    case Verify =>
      TrackStays(s, if Signed(cfg, s, px) && px.exp > 0 && px.exp >= s.now / 1000 then Verified(s.now) else Finished)
    case ClaimEvent(r) => ClaimEffect(s, px, r)
    case ReadDate => TrackStays(s, Dated(s.now / MS_PER_DAY))
    case Count(r) => CountEffect(s, px, tr.phase.day, r)
    case DropTrack => TrackStays(s, Finished)
  }

  function TrackNext(cfg: Config, s: State, i: nat, t: TrackStep): (s': State)
    requires TrackEnabled(cfg, s, i, t)
  {
    var e := TrackEffectOf(cfg, s, s.tracks[i], t);
    s.(tracks := s.tracks[i := s.tracks[i].(phase := e.phase)],
       db := e.db,
       hist := s.hist.(claims := e.claims, incrs := e.incrs, counted := e.counted))
  }

  // --- /vast steps --------------------------------------------------------------------------------

  predicate VastEnabled(cfg: Config, s: State, i: nat, v: VastStep) {
    && i < |s.vasts|
    && var p := s.vasts[i].phase;
       match v
       case Pick(c) =>
         && p.Choosing? && s.vasts[i].attempts < 5
         && (c.freqCap > 0 ==> c.freqCap <= cfg.maxCap && c.window > 0 && cfg.minWindow <= 1000 * c.window)
       case Consume(r) => p.FreqCall? && !r.Late? && (r.NoScript? ==> !p.eval)
       case Reserve(r) => p.BudgetCall? && !r.Late? && (r.NoScript? ==> !p.eval)
       case Render(_, imp) => p.Holding? && imp !in s.minted
       case DropVast => true
  }

  /** What a /vast step can change. */
  datatype VastEffect = VastEffect(phase: VastPhase, attempts: nat, db: Db, minted: map<Id, Mint>,
                                   lives: map<(Id, Id), seq<Life>>, reserved: map<Id, nat>, reported: map<Id, nat>,
                                   unreported: map<Id, nat>, inlined: map<Id, nat>)

  function VastStays(s: State, q: Vast, p: VastPhase): (e: VastEffect) {
    VastEffect(p, q.attempts, s.db, s.minted, s.hist.lives, s.hist.reserved, s.hist.reported, s.hist.unreported,
               s.hist.inlined)
  }

  /** An accepted frequency call, in the log of the key's lives. */
  function Live(lives: seq<Life>, created: bool, now: nat, window: int): (l: seq<Life>) {
    if created || lives == [] then lives + [Life(now, now + 1000 * window, [now])]
    else
      var last := lives[|lives| - 1];
      lives[|lives| - 1 := last.(times := last.times + [now])]
  }

  /** TryConsume: a rejection sends the handler back to choosing; an error lets the candidate through. */
  function ConsumeEffect(s: State, q: Vast, c: Cand, r: Reply): (e: VastEffect) {
    var k := FreqCount(q.user, c.ad);
    if r.NoScript? then VastStays(s, q, FreqCall(c, true))
    else if !r.Executes() then VastStays(s, q, BudgetCall(c, false))
    else
      var (d, n) := FreqScript(s.db, k, c.freqCap, c.window, s.now);
      Consumed(s, q, c, r.Ok?, d, n)
  }

  /** The script ran, left the store at d and said n; told: the handler got that reply. */
  function Consumed(s: State, q: Vast, c: Cand, told: bool, d: Db, n: int): (e: VastEffect) {
    var log := Live(LogAt(s.hist.lives, (q.user, c.ad)), FreqCount(q.user, c.ad) !in s.db, s.now, c.window);
    VastStays(s, q, if n == -1 && told then Choosing else BudgetCall(c, false)).(
      db := d,
      lives := if n == -1 then s.hist.lives else s.hist.lives[(q.user, c.ad) := log])
  }

  /** TryReserve: a rejection sends the handler back to choosing; an error ends the request without an ad. */
  function ReserveEffect(cfg: Config, s: State, q: Vast, c: Cand, r: Reply): (e: VastEffect) {
    if r.NoScript? then VastStays(s, q, BudgetCall(c, true))
    else if !r.Executes() then VastStays(s, q, Ended)
    else
      var (d, n) := BudgetScript(s.db, ImpsTotal(c.campaign), cfg.Cap(c.campaign));
      Reserved(s, q, c, r.Ok?, d, n)
  }

  function Reserved(s: State, q: Vast, c: Cand, told: bool, d: Db, n: int): (e: VastEffect) {
    VastStays(s, q, if !told then Ended else if n == -1 then Choosing else Holding(c)).(
      db := d,
      reserved := PlusIf(s.hist.reserved, c.campaign, n != -1),
      reported := PlusIf(s.hist.reported, c.campaign, n != -1 && told),
      unreported := PlusIf(s.hist.unreported, c.campaign, n != -1 && !told))
  }

  /** serveAd: mint the pixels and answer inline, unless media resolution or rendering fails. */
  function RenderEffect(s: State, q: Vast, c: Cand, ok: bool, imp: Id): (e: VastEffect) {
    if !ok then VastStays(s, q, Ended)
    else VastStays(s, q, Ended).(minted := s.minted[imp := Mint(c.ad, s.now)],
                                 inlined := Plus1(s.hist.inlined, c.campaign))
  }

  function VastEffectOf(cfg: Config, s: State, q: Vast, v: VastStep): (e: VastEffect)
    requires v.Consume? ==> q.phase.FreqCall?
    requires v.Reserve? ==> q.phase.BudgetCall?
    requires v.Render? ==> q.phase.Holding?
  {
    match v
    case Pick(c) =>
      VastStays(s, q, if c.freqCap > 0 then FreqCall(c, false) else BudgetCall(c, false)).(attempts := q.attempts + 1)
    case Consume(r) => ConsumeEffect(s, q, q.phase.c, r)
    case Reserve(r) => ReserveEffect(cfg, s, q, q.phase.c, r)
    case Render(ok, imp) => RenderEffect(s, q, q.phase.c, ok, imp)
    case DropVast => VastStays(s, q, Ended)
  }

  function VastNext(cfg: Config, s: State, i: nat, v: VastStep): (s': State)
    requires VastEnabled(cfg, s, i, v)
  {
    var e := VastEffectOf(cfg, s, s.vasts[i], v);
    s.(vasts := s.vasts[i := Vast(s.vasts[i].user, e.attempts, e.phase)],
       db := e.db,
       minted := e.minted,
       hist := s.hist.(lives := e.lives, reserved := e.reserved, reported := e.reported, unreported := e.unreported,
                       inlined := e.inlined))
  }

  // --- Worker steps -------------------------------------------------------------------------------

  /** Inside the part of runTick between a successful acquire and the end of the release. */
  predicate Active(p: WorkPhase) {
    p.Loading? || p.Draining? || p.Upserting? || p.Reconciling? || p.Pausing? || p.Releasing?
  }

  predicate InTime(s: State, w: Worker) {
    s.now <= w.deadline
  }

  /** The commands of a tick carry its context: none is sent after the deadline. */
  predicate WorkEnabled(cfg: Config, s: State, i: nat, t: WorkStep) {
    && i < |s.workers|
    && var w := s.workers[i];
       var p := w.phase;
       match t
       case Begin => p.Idle?
       case Acquire(r) => p.Acquiring? && InTime(s, w) && !r.NoScript?
       case Load(_) => p.Loading? && InTime(s, w)
       case Drain(r) => p.Draining? && p.todo != [] && InTime(s, w) && !r.NoScript?
       case EndDrain => p.Draining? && p.todo == [] && InTime(s, w)
       case Upsert(row, r) => p.Upserting? && row in w.deltas && InTime(s, w) && !r.NoScript?
       case EndUpsert => p.Upserting? && w.deltas == map[] && InTime(s, w)
       case ReadBudget(c, r) => p.Reconciling? && c in p.open && InTime(s, w) && Plain(r)
       case Pause(r) => p.Pausing? && InTime(s, w) && !r.NoScript?
       case EndReconcile => p.Reconciling? && p.open == {} && InTime(s, w)
       case Release(r) => p.Releasing? && InTime(s, w) && !r.NoScript?
       case Timeout => !InTime(s, w) && (p.Acquiring? || Active(p))
       case Crash => !p.Dead?
  }

  /** What a worker step can change. */
  datatype WorkEffect = WorkEffect(worker: Worker, db: Db, stats: Tally, completed: set<Id>,
                                   releases: set<(Id, nat)>, sent: seq<Sent>, lost: Tally)

  function WorkGoes(s: State, w: Worker): (e: WorkEffect) {
    WorkEffect(w, s.db, s.stats, s.completed, s.releases, s.sent, s.hist.lost)
  }

  /** The worker gives up what it holds. */
  function Forfeit(s: State, w: Worker, p: WorkPhase): (e: WorkEffect) {
    WorkGoes(s, w.(phase := p, deltas := map[])).(lost := AddRows(s.hist.lost, w.deltas))
  }

  /** In flight, if that is how the command ended. */
  function SendIf(s: State, x: Sent, r: Reply): (sent: seq<Sent>) {
    if r.Late? then s.sent + [x] else s.sent
  }

  /** For every loaded ad, every event of today and of yesterday. */
  function Cells(ads: seq<(Id, Id)>, today: int): (cells: seq<(Row, Event)>) {
    if ads == [] then []
    else DayCells(ads[0].0, today) + DayCells(ads[0].0, today - 1) + Cells(ads[1..], today)
  }

  function DayCells(ad: Id, day: int): (cells: seq<(Row, Event)>) {
    seq(|TRACKED_EVENTS|, i requires 0 <= i < |TRACKED_EVENTS| => (Row(ad, day), TRACKED_EVENTS[i]))
  }

  /** TryAcquire. */
  function AcquireEffect(cfg: Config, s: State, w: Worker, r: Reply): (e: WorkEffect) {
    if !cfg.useLock then WorkGoes(s, w.(phase := Loading))
    else if !r.Executes() || WorkerLock in s.db then
      WorkGoes(s, w.(phase := Idle)).(sent := SendIf(s, SentAcquire(w.id), r))
    else WorkGoes(s, w.(phase := if r.Ok? then Loading else Idle)).(
           db := SetNx(s.db, WorkerLock, Token(w.id), s.now + LOCK_TTL))
  }

  /** GETDEL of one counter. */
  function DrainEffect(s: State, w: Worker, row: Row, ev: Event, rest: seq<(Row, Event)>, r: Reply): (e: WorkEffect) {
    var k := Counter(row.ad, ev, row.day);
    var n := NumAt(s.db, k);
    if !r.Executes() || n <= 0 then
      WorkGoes(s, w.(phase := Draining(rest))).(sent := SendIf(s, SentDrain(row, ev), r))
    else if r.Ok? then
      WorkGoes(s, w.(phase := Draining(rest), deltas := Bump(w.deltas, row, ev, n))).(db := Del(s.db, k))
    else WorkGoes(s, w.(phase := Draining(rest))).(db := Del(s.db, k), lost := Bump(s.hist.lost, row, ev, n))
  }

  /** One upsert. A row without counts is skipped. A failed statement ends the tick, and the rows not written
      are gone, except one whose statement is still in flight. */
  function UpsertEffect(s: State, w: Worker, row: Row, r: Reply): (e: WorkEffect)
    requires row in w.deltas
  {
    var counts := w.deltas[row];
    if !AnyNonZero(counts) then WorkGoes(s, w.(deltas := w.deltas - {row}))
    else
      var stats := if r.Executes() then AddRows(s.stats, map[row := counts]) else s.stats;
      if r.Ok? then WorkGoes(s, w.(deltas := w.deltas - {row})).(stats := stats)
      else
        var gone := if r.Executes() || r.Late? then w.deltas - {row} else w.deltas;
        WorkGoes(s, w.(phase := Releasing, deltas := map[])).(
          stats := stats, sent := SendIf(s, SentUpsert(row, counts), r), lost := AddRows(s.hist.lost, gone))
  }

  function WorkEffectOf(cfg: Config, s: State, w: Worker, t: WorkStep): (e: WorkEffect)
    requires t.Drain? ==> w.phase.Draining? && w.phase.todo != []
    requires t.Upsert? ==> t.row in w.deltas
    requires t.ReadBudget? ==> w.phase.Reconciling?
    requires t.Pause? ==> w.phase.Pausing?
  {
    match t
    case Begin => WorkGoes(s, w.(phase := Acquiring, deadline := s.now + TICK_TIMEOUT))
    case Acquire(r) => AcquireEffect(cfg, s, w, r)
    case Load(ads) =>
      if ads == [] then WorkGoes(s, w.(phase := Releasing))
      else
        var capped := set a | a in ads && cfg.Cap(a.1) > 0 :: a.1;
        WorkGoes(s, w.(phase := Draining(Cells(ads, s.now / MS_PER_DAY)), campaigns := capped))
    case Drain(r) => DrainEffect(s, w, w.phase.todo[0].0, w.phase.todo[0].1, w.phase.todo[1..], r)
    case EndDrain => WorkGoes(s, w.(phase := Upserting))
    case Upsert(row, r) => UpsertEffect(s, w, row, r)
    case EndUpsert => WorkGoes(s, w.(phase := Reconciling(w.campaigns)))
    case ReadBudget(c, r) =>
      var open := w.phase.open - {c};
      var spent := ImpsTotal(c) in s.db && NumAt(s.db, ImpsTotal(c)) >= cfg.Cap(c);
      WorkGoes(s, w.(phase := if r.Ok? && spent then Pausing(c, open) else Reconciling(open)))
    case Pause(r) =>
      WorkGoes(s, w.(phase := Reconciling(w.phase.open))).(
        completed := if r.Executes() then s.completed + {w.phase.c} else s.completed,
        sent := SendIf(s, SentPause(w.phase.c), r))
    case EndReconcile => WorkGoes(s, w.(phase := Releasing))
    case Release(r) =>
      var e := WorkGoes(s, w.(phase := Idle));
      if r.Executes() then e.(db := ReleaseScript(s.db, w.id))
      else if r.Late? then e.(releases := s.releases + {(w.id, w.deadline)})
      else e
    case Timeout => Forfeit(s, w, Idle)
    case Crash => Forfeit(s, w, Dead)
  }

  function WorkNext(cfg: Config, s: State, i: nat, t: WorkStep): (s': State)
    requires WorkEnabled(cfg, s, i, t)
  {
    var e := WorkEffectOf(cfg, s, s.workers[i], t);
    s.(workers := s.workers[i := e.worker],
       db := e.db,
       stats := e.stats,
       completed := e.completed,
       releases := e.releases,
       sent := e.sent,
       hist := s.hist.(lost := e.lost))
  }

  // --- Runs ---------------------------------------------------------------------------------------

  predicate Enabled(cfg: Config, s: State, step: Step) {
    match step
    case Env(e) => EnvEnabled(cfg, s, e)
    case TrackOf(i, t) => TrackEnabled(cfg, s, i, t)
    case VastOf(i, v) => VastEnabled(cfg, s, i, v)
    case WorkOf(i, w) => WorkEnabled(cfg, s, i, w)
  }

  function Next(cfg: Config, s: State, step: Step): (s': State)
    requires Enabled(cfg, s, step)
  {
    match step
    case Env(e) => EnvNext(s, e)
    case TrackOf(i, t) => TrackNext(cfg, s, i, t)
    case VastOf(i, v) => VastNext(cfg, s, i, v)
    case WorkOf(i, w) => WorkNext(cfg, s, i, w)
  }

  /** The state after a run from s, if every step was enabled in its turn. */
  function After(cfg: Config, s: State, steps: seq<Step>): (r: Option<State>) {
    if steps == [] then Some(s)
    else
      match After(cfg, s, steps[..|steps| - 1])
      case None => None
      case Some(t) =>
        var step := steps[|steps| - 1];
        if Enabled(cfg, t, step) then Some(Next(cfg, t, step)) else None
  }
}
