/** The worker lock: no two workers are ever inside a tick at once, exactly when they take the lock and a release
    lands sooner after its tick's deadline than the lock outlives that deadline; and no release removes another
    worker's lock. */
module Mutex {
  import opened Options
  import opened Redis
  import opened Protocol
  import opened Frames
  import opened Runs

  /** Between a successful acquire and the end of the tick, before the deadline. */
  predicate InTick(s: State, w: Worker) {
    Active(w.phase) && s.now <= w.deadline
  }

  ghost predicate Exclusive(s: State) {
    forall i, j | 0 <= i < j < |s.workers| :: !(InTick(s, s.workers[i]) && InTick(s, s.workers[j]))
  }

  /** The lock carries this owner's token beyond the deadline. */
  ghost predicate Locks(db: Db, owner: Id, deadline: int) {
    && WorkerLock in db && db[WorkerLock].value == Token(owner)
    && db[WorkerLock].expires.Some? && db[WorkerLock].expires.value > deadline
  }

  ghost predicate DistinctIds(s: State) {
    forall i, j | 0 <= i < j < |s.workers| :: s.workers[i].id != s.workers[j].id
  }

  /** How long the lock outlives the deadline of a tick that took it at its very start. */
  const MARGIN := LOCK_TTL - TICK_TIMEOUT

  /** A release on its way that can still land. */
  predicate Landing(s: State, x: (Id, nat), lag: nat) {
    x in s.releases && s.now <= x.1 + lag
  }

  /** Every running tick and every landing release owns the lock, and nobody owns it twice. */
  ghost predicate LockInv(s: State, lag: nat) {
    && DistinctIds(s)
    && (forall w <- s.workers :: InTick(s, w) ==> Locks(s.db, w.id, w.deadline + lag))
    && (forall x <- s.releases :: Landing(s, x, lag) ==> Locks(s.db, x.0, x.1 + lag))
    && (forall w <- s.workers, x <- s.releases :: InTick(s, w) && Landing(s, x, lag) ==> w.id != x.0)
    && (forall x <- s.releases, y <- s.releases :: Landing(s, x, lag) && Landing(s, y, lag) ==> x == y)
  }

  lemma InvExcludes(s: State, lag: nat)
    requires LockInv(s, lag)
    ensures Exclusive(s)
  {
  }

  /** The lock, if still running at now, stays as it is. */
  ghost predicate Kept(db: Db, d: Db, now: int) {
    WorkerLock in db && db[WorkerLock].expires.Some? && db[WorkerLock].expires.value > now ==>
      WorkerLock in d && d[WorkerLock] == db[WorkerLock]
  }

  /** Time passes and workers stay; the lock is untouched, or was free for the taking. */
  lemma LockStays(s: State, s': State, lag: nat)
    requires LockInv(s, lag) && s.now <= s'.now && s'.workers == s.workers && s'.releases == s.releases
    requires Kept(s.db, s'.db, s'.now)
    ensures LockInv(s', lag)
  {
  }

  lemma NewWorker(s: State, id: Id, lag: nat)
    requires LockInv(s, lag) && forall w <- s.workers :: w.id != id
    ensures LockInv(EnvNext(s, StartProcess(id)), lag)
  {
  }

  /** The only owner of the lock gives it up. */
  lemma Lands(s: State, x: (Id, nat), lag: nat)
    requires LockInv(s, lag) && Landing(s, x, lag)
    ensures LockInv(EnvNext(s, LandRelease(x.0, x.1)), lag)
  {
  }

  lemma EnvLock(cfg: Config, s: State, e: EnvStep)
    requires EnvEnabled(cfg, s, e) && LockInv(s, cfg.releaseLag)
    ensures LockInv(EnvNext(s, e), cfg.releaseLag)
  {
    match e
    case StartProcess(id) => NewWorker(s, id, cfg.releaseLag);
    case LandRelease(owner, deadline) => Lands(s, (owner, deadline), cfg.releaseLag);
    case _ => LockStays(s, EnvNext(s, e), cfg.releaseLag);
  }

  lemma RequestLock(cfg: Config, s: State, step: Step)
    requires Enabled(cfg, s, step) && (step.TrackOf? || step.VastOf?) && LockInv(s, cfg.releaseLag)
    ensures LockInv(Next(cfg, s, step), cfg.releaseLag)
  {
    OneKey(cfg, s, step);
    RequestsLeave(cfg, s, step);
    LockStays(s, Next(cfg, s, step), cfg.releaseLag);
  }

  // --- Worker steps -------------------------------------------------------------------------------

  /** Worker i enters or leaves a tick, or carries on with the lock as it was. */
  lemma SameLock(s: State, s': State, i: nat, w: Worker, lag: nat)
    requires LockInv(s, lag) && i < |s.workers| && w.id == s.workers[i].id
    requires s'.now == s.now && s'.workers == s.workers[i := w] && s'.releases == s.releases
    requires InTick(s, w) ==> InTick(s, s.workers[i]) && w.deadline == s.workers[i].deadline
    requires Kept(s.db, s'.db, s.now)
    ensures LockInv(s', lag)
  {
  }

  lemma AcquireLock(cfg: Config, s: State, i: nat, r: Reply)
    requires WorkEnabled(cfg, s, i, Acquire(r)) && cfg.useLock && cfg.releaseLag < MARGIN && LockInv(s, cfg.releaseLag)
    requires s.workers[i].deadline <= s.now + TICK_TIMEOUT
    ensures LockInv(WorkNext(cfg, s, i, Acquire(r)), cfg.releaseLag)
  {
    var s' := WorkNext(cfg, s, i, Acquire(r));
    var w := s.workers[i];
    if r.Executes() && WorkerLock !in s.db {
      assert Locks(s'.db, w.id, w.deadline + cfg.releaseLag);
      forall v | v in s.workers ensures !InTick(s, v) {
      }
      forall x | x in s.releases ensures !Landing(s, x, cfg.releaseLag) {
      }
      forall v | v in s'.workers && InTick(s', v) ensures v == s'.workers[i] {
        assert v in s.workers ==> !InTick(s, v);
      }
      assert forall x <- s'.releases :: !Landing(s, x, cfg.releaseLag) && !Landing(s', x, cfg.releaseLag);
    } else {
      SameLock(s, s', i, s'.workers[i], cfg.releaseLag);
    }
  }

  lemma ReleaseLock(cfg: Config, s: State, i: nat, r: Reply)
    requires WorkEnabled(cfg, s, i, Release(r)) && LockInv(s, cfg.releaseLag)
    ensures LockInv(WorkNext(cfg, s, i, Release(r)), cfg.releaseLag)
  {
  }

  /** Deadlines lie within one timeout of the present. */
  ghost predicate Deadlines(s: State) {
    forall w <- s.workers :: w.deadline <= s.now + TICK_TIMEOUT
  }

  predicate Locking(t: WorkStep) {
    t.Acquire? || t.Release?
  }

  /** A worker keeps its id; only Begin sets its deadline; only Acquire enters a tick. */
  lemma KeepsTick(cfg: Config, s: State, i: nat, t: WorkStep)
    requires WorkEnabled(cfg, s, i, t)
    ensures var w, w' := s.workers[i], WorkEffectOf(cfg, s, s.workers[i], t).worker;
            && w'.id == w.id
            && w'.deadline == (if t.Begin? then s.now + TICK_TIMEOUT else w.deadline)
            && (!t.Acquire? && Active(w'.phase) ==> Active(w.phase) && InTime(s, w))
  {
  }

  lemma KeepsLock(cfg: Config, s: State, i: nat, t: WorkStep)
    requires WorkEnabled(cfg, s, i, t) && !Locking(t)
    ensures WorkNext(cfg, s, i, t).releases == s.releases
    ensures Kept(s.db, WorkNext(cfg, s, i, t).db, s.now)
  {
  }

  lemma WorkLock(cfg: Config, s: State, i: nat, t: WorkStep)
    requires WorkEnabled(cfg, s, i, t) && cfg.useLock && cfg.releaseLag < MARGIN
    requires LockInv(s, cfg.releaseLag) && Deadlines(s)
    ensures LockInv(WorkNext(cfg, s, i, t), cfg.releaseLag)
  {
    match t
    case Acquire(r) => AcquireLock(cfg, s, i, r);
    case Release(r) => ReleaseLock(cfg, s, i, r);
    case _ =>
      KeepsTick(cfg, s, i, t);
      KeepsLock(cfg, s, i, t);
      SameLock(s, WorkNext(cfg, s, i, t), i, WorkNext(cfg, s, i, t).workers[i], cfg.releaseLag);
  }

  lemma StepLock(cfg: Config, s: State, step: Step)
    requires Enabled(cfg, s, step) && cfg.useLock && cfg.releaseLag < MARGIN
    requires LockInv(s, cfg.releaseLag) && Deadlines(s)
    ensures LockInv(Next(cfg, s, step), cfg.releaseLag)
  {
    match step
    case Env(e) => EnvLock(cfg, s, e);
    case WorkOf(i, w) => WorkLock(cfg, s, i, w);
    case _ => RequestLock(cfg, s, step);
  }

  lemma StepDeadlines(cfg: Config, s: State, step: Step)
    requires Enabled(cfg, s, step) && Deadlines(s)
    ensures Deadlines(Next(cfg, s, step))
  {
    if step.WorkOf? {
      KeepsTick(cfg, s, step.i, step.w);
    }
  }

  lemma {:induction false} RunLock(cfg: Config, steps: seq<Step>, s: State)
    requires After(cfg, INIT, steps) == Some(s) && cfg.useLock && cfg.releaseLag < MARGIN
    ensures LockInv(s, cfg.releaseLag) && Deadlines(s)
  {
    if steps != [] {
      var t := After(cfg, INIT, steps[..|steps| - 1]).value;
      RunLock(cfg, steps[..|steps| - 1], t);
      StepLock(cfg, t, steps[|steps| - 1]);
      StepDeadlines(cfg, t, steps[|steps| - 1]);
    }
  }

  // --- Any configuration --------------------------------------------------------------------------

  /** The lock of a worker disappears only by its own release, early or late, or after its expiry; and while it is
      there, no other worker's token replaces it. */
  lemma OnlyOwnerRemoves(cfg: Config, s: State, step: Step, owner: Id)
    requires Enabled(cfg, s, step) && WorkerLock in s.db && s.db[WorkerLock].value == Token(owner)
    ensures var d := Next(cfg, s, step).db;
            || (WorkerLock in d && d[WorkerLock] == s.db[WorkerLock])
            || (step == Env(DropKey(WorkerLock)) && s.now >= s.db[WorkerLock].expires.value)
            || (step.Env? && step.e.LandRelease? && step.e.owner == owner)
            || (step.WorkOf? && step.w.Release? && s.workers[step.i].id == owner)
  {
    match step
    case WorkOf(i, t) =>
      if Locking(t) {
        LockSteps(cfg, s, i, t, owner);
      } else {
        WorkOneKey(cfg, s, i, t);
      }
    case Env(e) => EnvRemoves(cfg, s, e, owner);
    case _ => OneKey(cfg, s, step);
  }

  lemma EnvRemoves(cfg: Config, s: State, e: EnvStep, owner: Id)
    requires EnvEnabled(cfg, s, e) && WorkerLock in s.db && s.db[WorkerLock].value == Token(owner)
    ensures var d := EnvNext(s, e).db;
            || (WorkerLock in d && d[WorkerLock] == s.db[WorkerLock])
            || (e == DropKey(WorkerLock) && s.now >= s.db[WorkerLock].expires.value)
            || (e.LandRelease? && e.owner == owner)
  {
  }

  lemma LockSteps(cfg: Config, s: State, i: nat, t: WorkStep, owner: Id)
    requires WorkEnabled(cfg, s, i, t) && Locking(t)
    requires WorkerLock in s.db && s.db[WorkerLock].value == Token(owner)
    ensures WorkNext(cfg, s, i, t).db == s.db || (t.Release? && s.workers[i].id == owner)
  {
  }

  // --- Exactly when -------------------------------------------------------------------------------

  lemma TwoProcesses(cfg: Config) returns (steps: seq<Step>, s: State)
    ensures Reached(cfg, steps, s)
    ensures s == INIT.(workers := [Worker("a", TICK_TIMEOUT, Acquiring, map[], {}), Worker("b", 0, Idle, map[], {})])
  {
    steps, s := Do(cfg, [], INIT, Env(StartProcess("a")));
    steps, s := Do(cfg, steps, s, Env(StartProcess("b")));
    steps, s := Do(cfg, steps, s, WorkOf(0, Begin));
  }

  /** Two processes in a tick together: without the lock. */
  lemma WithoutLock(cfg: Config) returns (steps: seq<Step>, s: State)
    requires !cfg.useLock
    ensures Reached(cfg, steps, s) && !Exclusive(s)
  {
    steps, s := TwoProcesses(cfg);
    steps, s := Do(cfg, steps, s, WorkOf(0, Acquire(Ok)));
    steps, s := Do(cfg, steps, s, WorkOf(1, Begin));
    steps, s := Do(cfg, steps, s, WorkOf(1, Acquire(Ok)));
    assert InTick(s, s.workers[0]) && InTick(s, s.workers[1]);
  }

  /** Process a holds the lock again, with the release of its first tick still on its way. */
  ghost predicate Reacquired(s: State) {
    && s.now == LOCK_TTL && s.releases == {("a", TICK_TIMEOUT)}
    && s.workers == [Worker("a", LOCK_TTL + TICK_TIMEOUT, Loading, map[], {}), Worker("b", 0, Idle, map[], {})]
    && s.db == map[WorkerLock := Entry(Token("a"), Some(2 * LOCK_TTL))]
  }

  lemma FirstTick(cfg: Config) returns (steps: seq<Step>, s: State)
    requires cfg.useLock
    ensures Reached(cfg, steps, s)
    ensures s.now == 0 && s.releases == {("a", TICK_TIMEOUT)}
    ensures s.workers == [Worker("a", TICK_TIMEOUT, Idle, map[], {}), Worker("b", 0, Idle, map[], {})]
    ensures s.db == map[WorkerLock := Entry(Token("a"), Some(LOCK_TTL))]
  {
    steps, s := TwoProcesses(cfg);
    steps, s := Do(cfg, steps, s, WorkOf(0, Acquire(Ok)));
    steps, s := Do(cfg, steps, s, WorkOf(0, Load([])));
    steps, s := Do(cfg, steps, s, WorkOf(0, Release(Late)));
  }

  lemma SecondTick(cfg: Config) returns (steps: seq<Step>, s: State)
    requires cfg.useLock
    ensures Reached(cfg, steps, s) && Reacquired(s)
  {
    steps, s := FirstTick(cfg);
    steps, s := Do(cfg, steps, s, Env(Advance(LOCK_TTL)));
    steps, s := Do(cfg, steps, s, Env(DropKey(WorkerLock)));
    assert s.db == map[];
    steps, s := Do(cfg, steps, s, WorkOf(0, Begin));
    steps, s := Do(cfg, steps, s, WorkOf(0, Acquire(Ok)));
  }

  /** Two processes in a tick together: the token names the process and not the tick, so the delayed release of a
      tick frees the lock of the same process's next tick. */
  lemma WithLateRelease(cfg: Config) returns (steps: seq<Step>, s: State)
    requires cfg.useLock && cfg.releaseLag >= MARGIN
    ensures Reached(cfg, steps, s) && !Exclusive(s)
  {
    steps, s := SecondTick(cfg);
    steps, s := Do(cfg, steps, s, Env(LandRelease("a", TICK_TIMEOUT)));
    assert s.db == map[];
    steps, s := Do(cfg, steps, s, WorkOf(1, Begin));
    steps, s := Do(cfg, steps, s, WorkOf(1, Acquire(Ok)));
    assert InTick(s, s.workers[0]) && InTick(s, s.workers[1]);
  }

  /** At most one worker is past its acquire and not done, before its deadline. */
  ghost predicate Alone(s: State) {
    forall i, j | 0 <= i < j < |s.workers| ::
      var v, w := s.workers[i], s.workers[j];
      || v.phase.Idle? || v.phase.Acquiring? || v.phase.Dead? || s.now > v.deadline
      || w.phase.Idle? || w.phase.Acquiring? || w.phase.Dead? || s.now > w.deadline
  }

  lemma AloneIsExclusive(s: State)
    ensures Alone(s) <==> Exclusive(s)
  {
    forall w: Worker
      ensures InTick(s, w) <==> !w.phase.Idle? && !w.phase.Acquiring? && !w.phase.Dead? && s.now <= w.deadline
    {
    }
  }

  /** No run ever has two workers inside a tick, exactly when they take the lock and every release lands less than
      the 15 seconds between the two timeouts after the deadline of the tick that sent it. */
  lemma MutualExclusionIff(cfg: Config)
    ensures (forall steps | After(cfg, INIT, steps).Some? :: Alone(After(cfg, INIT, steps).value))
            <==> cfg.useLock && cfg.releaseLag < 15_000
  {
    if cfg.useLock && cfg.releaseLag < MARGIN {
      forall steps | After(cfg, INIT, steps).Some? ensures Alone(After(cfg, INIT, steps).value) {
        AloneIsExclusive(After(cfg, INIT, steps).value);
        RunLock(cfg, steps, After(cfg, INIT, steps).value);
        InvExcludes(After(cfg, INIT, steps).value, cfg.releaseLag);
      }
    } else if cfg.useLock {
      var steps, s := WithLateRelease(cfg);
      AloneIsExclusive(s);
      assert !Alone(After(cfg, INIT, steps).value);
    } else {
      var steps, s := WithoutLock(cfg);
      AloneIsExclusive(s);
      assert !Alone(After(cfg, INIT, steps).value);
    }
  }
}
