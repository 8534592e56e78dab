/** The protocol and the handlers written as code agree: a worker of the protocol that meets no failure and no
    interference does what Drainer.Tick does, and one attempt of a /vast request ends as Delivery says. */
module Refinement {
  import opened Options
  import opened Events
  import opened Redis
  import opened Protocol
  import opened Frames
  import opened Runs
  import opened Conservation
  import D = Drainer
  import V = Delivery

  // --- The tick -----------------------------------------------------------------------------------

  /** A loaded (ad, campaign) pair as the drainer sees it. */
  function Active(cfg: Config, ads: seq<(Id, Id)>): (a: seq<D.ActiveAd>)
    ensures |a| == |ads|
  {
    seq(|ads|, i requires 0 <= i < |ads| => D.ActiveAd(ads[i].0, ads[i].1, NatAt(cfg.limits, ads[i].1)))
  }

  lemma {:induction false} CellsExact(ads: seq<(Id, Id)>, today: int, r: Row, ev: Event)
    ensures (r, ev) in Cells(ads, today) <==> exists a <- ads :: r == Row(a.0, today) || r == Row(a.0, today - 1)
  {
    if ads != [] {
      CellsExact(ads[1..], today, r, ev);
      DayCellsExact(ads[0].0, today, r, ev);
      DayCellsExact(ads[0].0, today - 1, r, ev);
      assert forall a :: a in ads <==> a == ads[0] || a in ads[1..];
    }
  }

  lemma DayCellsExact(ad: Id, day: int, r: Row, ev: Event)
    ensures (r, ev) in DayCells(ad, day) <==> r == Row(ad, day)
  {
    AllTracked(ev);
    var i :| 0 <= i < |TRACKED_EVENTS| && TRACKED_EVENTS[i] == ev;
    assert DayCells(ad, day)[i] == (Row(ad, day), ev);
  }

  /** The counters of these cells went from the store to the deltas. */
  ghost predicate Moved(db: Db, d: Db, was: Tally, now: Tally, cells: set<(Row, Event)>) {
    && (forall k :: k in d <==> k in db && !(k.Counter? && (Row(k.ad, k.day), k.ev) in cells))
    && (forall k <- d :: d[k] == db[k])
    && (forall r, ev :: Cell(now, r, ev) ==
                        Cell(was, r, ev) + (if (r, ev) in cells then NumAt(db, Counter(r.ad, ev, r.day)) else 0))
  }

  lemma MovedNext(s: State, w: Worker, row: Row, ev': Event, rest: seq<(Row, Event)>, db: Db, was: Tally,
                  cells: set<(Row, Event)>)
    requires CountersPlain(db) && Moved(db, s.db, was, w.deltas, cells)
    ensures var e := DrainEffect(s, w, row, ev', rest, Ok);
            Moved(db, e.db, was, e.worker.deltas, cells + {(row, ev')})
  {
    var k := Counter(row.ad, ev', row.day);
    var e := DrainEffect(s, w, row, ev', rest, Ok);
    assert k in s.db ==> s.db[k] == db[k] && NumAt(db, k) > 0;
    forall r, ev
      ensures Cell(e.worker.deltas, r, ev) ==
              Cell(was, r, ev) + (if (r, ev) in cells + {(row, ev')} then NumAt(db, Counter(r.ad, ev, r.day)) else 0)
    {
      if NumAt(s.db, k) > 0 {
        BumpCell(w.deltas, row, ev', NumAt(s.db, k), r, ev);
      }
    }
  }

  /** Worker i is at work in time. */
  predicate Busy(s: State, i: nat, p: WorkPhase) {
    i < |s.workers| && s.workers[i].phase == p && InTime(s, s.workers[i])
  }

  /** The rest of the system as far as a tick depends on it. */
  ghost predicate Apart(s: State, s': State, i: nat) {
    && s'.now == s.now && |s'.workers| == |s.workers| && i < |s.workers|
    && s'.workers[i].deadline == s.workers[i].deadline && s'.workers[i].campaigns == s.workers[i].campaigns
  }

  lemma {:induction false} DrainAll(cfg: Config, o: State, steps: seq<Step>, s: State, i: nat, todo: seq<(Row, Event)>,
                                    db: Db, was: Tally, cells: set<(Row, Event)>)
    returns (steps': seq<Step>, s': State)
    requires Leads(cfg, o, steps, s) && Busy(s, i, Draining(todo))
    requires CountersPlain(db) && Moved(db, s.db, was, s.workers[i].deltas, cells)
    ensures Leads(cfg, o, steps', s') && Busy(s', i, Upserting) && Apart(s, s', i)
    ensures s'.stats == s.stats && s'.completed == s.completed
    ensures Moved(db, s'.db, was, s'.workers[i].deltas, cells + set c | c in todo)
    decreases |todo|
  {
    if todo == [] {
      steps', s' := Then(cfg, o, steps, s, WorkOf(i, EndDrain));
      assert cells + (set c | c in todo) == cells;
    } else {
      steps', s' := DrainFirst(cfg, o, steps, s, i, todo, db, was, cells);
      steps', s' := DrainAll(cfg, o, steps', s', i, todo[1..], db, was, cells + {todo[0]});
      assert cells + {todo[0]} + (set c | c in todo[1..]) == cells + set c | c in todo;
    }
  }

  lemma DrainFirst(cfg: Config, o: State, steps: seq<Step>, s: State, i: nat, todo: seq<(Row, Event)>, db: Db,
                   was: Tally, cells: set<(Row, Event)>)
    returns (steps': seq<Step>, s': State)
    requires Leads(cfg, o, steps, s) && Busy(s, i, Draining(todo)) && todo != []
    requires CountersPlain(db) && Moved(db, s.db, was, s.workers[i].deltas, cells)
    ensures Leads(cfg, o, steps', s') && Busy(s', i, Draining(todo[1..])) && Apart(s, s', i)
    ensures s'.stats == s.stats && s'.completed == s.completed
    ensures Moved(db, s'.db, was, s'.workers[i].deltas, cells + {todo[0]})
  {
    steps', s' := Then(cfg, o, steps, s, WorkOf(i, Drain(Ok)));
    MovedNext(s, s.workers[i], todo[0].0, todo[0].1, todo[1..], db, was, cells);
  }

  /** Every held count reaches daily_stats. */
  lemma {:induction false} UpsertAll(cfg: Config, o: State, steps: seq<Step>, s: State, i: nat)
    returns (steps': seq<Step>, s': State)
    requires Leads(cfg, o, steps, s) && Busy(s, i, Upserting)
    ensures Leads(cfg, o, steps', s') && Busy(s', i, Reconciling(s.workers[i].campaigns)) && Apart(s, s', i)
    ensures s'.db == s.db && s'.completed == s.completed
    ensures forall r, ev :: Cell(s'.stats, r, ev) == Cell(s.stats, r, ev) + Cell(s.workers[i].deltas, r, ev)
    decreases |s.workers[i].deltas|
  {
    var deltas := s.workers[i].deltas;
    if deltas == map[] {
      steps', s' := Then(cfg, o, steps, s, WorkOf(i, EndUpsert));
    } else {
      steps', s' := UpsertOne(cfg, o, steps, s, i);
      steps', s' := UpsertAll(cfg, o, steps', s', i);
    }
  }

  lemma UpsertOne(cfg: Config, o: State, steps: seq<Step>, s: State, i: nat) returns (steps': seq<Step>, s': State)
    requires Leads(cfg, o, steps, s) && Busy(s, i, Upserting) && s.workers[i].deltas != map[]
    ensures Leads(cfg, o, steps', s') && Busy(s', i, Upserting) && Apart(s, s', i)
    ensures s'.db == s.db && s'.completed == s.completed && |s'.workers[i].deltas| < |s.workers[i].deltas|
    ensures forall r, ev :: Cell(s'.stats, r, ev) + Cell(s'.workers[i].deltas, r, ev) ==
                            Cell(s.stats, r, ev) + Cell(s.workers[i].deltas, r, ev)
  {
    var deltas := s.workers[i].deltas;
    var row :| row in deltas;
    steps', s' := Then(cfg, o, steps, s, WorkOf(i, Upsert(row, Ok)));
    assert (deltas - {row}).Keys == deltas.Keys - {row};
    forall r, ev
      ensures Cell(s'.stats, r, ev) + Cell(s'.workers[i].deltas, r, ev) == Cell(s.stats, r, ev) + Cell(deltas, r, ev)
    {
      RowTaken(deltas, row, r, ev);
      if AnyNonZero(deltas[row]) {
        UpsertSettles(s, s.workers[i], row, Ok, r, ev);
      }
    }
  }

  ghost predicate IsSpent(cfg: Config, db: Db, c: Id) {
    D.Spent(db, c, cfg.Cap(c))
  }

  /** Exactly the spent ones among the open campaigns were completed. */
  ghost predicate Completes(cfg: Config, db: Db, was: set<Id>, now: set<Id>, open: set<Id>) {
    forall c :: c in now <==> c in was || (c in open && IsSpent(cfg, db, c))
  }

  lemma {:induction false} ReconcileAll(cfg: Config, o: State, steps: seq<Step>, s: State, i: nat, open: set<Id>)
    returns (steps': seq<Step>, s': State)
    requires Leads(cfg, o, steps, s) && Busy(s, i, Reconciling(open))
    requires forall c <- open :: cfg.Cap(c) > 0
    ensures Leads(cfg, o, steps', s') && Busy(s', i, Releasing) && Apart(s, s', i)
    ensures s'.db == s.db && s'.stats == s.stats
    ensures Completes(cfg, s.db, s.completed, s'.completed, open)
    decreases |open|
  {
    if open == {} {
      steps', s' := Then(cfg, o, steps, s, WorkOf(i, EndReconcile));
    } else {
      var c :| c in open;
      steps', s' := ReconcileOne(cfg, o, steps, s, i, open, c);
      steps', s' := ReconcileAll(cfg, o, steps', s', i, open - {c});
    }
  }

  lemma ReconcileOne(cfg: Config, o: State, steps: seq<Step>, s: State, i: nat, open: set<Id>, c: Id)
    returns (steps': seq<Step>, s': State)
    requires Leads(cfg, o, steps, s) && Busy(s, i, Reconciling(open)) && c in open && cfg.Cap(c) > 0
    ensures Leads(cfg, o, steps', s') && Busy(s', i, Reconciling(open - {c})) && Apart(s, s', i)
    ensures s'.db == s.db && s'.stats == s.stats
    ensures Completes(cfg, s.db, s.completed, s'.completed, {c})
  {
    steps', s' := Then(cfg, o, steps, s, WorkOf(i, ReadBudget(c, Ok)));
    if IsSpent(cfg, s.db, c) {
      steps', s' := Then(cfg, o, steps', s', WorkOf(i, Pause(Ok)));
    }
  }

  /** The contract of Drainer.Tick, on the protocol's state: the visited rows' counters move, column by column, and
      the spent campaigns are completed. */
  ghost predicate Ticked(s: State, s': State, ads: seq<D.ActiveAd>) {
    var rows := D.Rows(ads, s.now / MS_PER_DAY);
    && D.Without(s.db, s'.db, rows)
    && (forall r, ev :: Cell(s'.stats, r, ev) ==
                        Cell(s.stats, r, ev) + (if r in rows then NumAt(s.db, Counter(r.ad, ev, r.day)) else 0))
    && s'.completed == s.completed + D.SpentAmong(s.db, D.Caps(ads))
  }

  lemma RowsAreCells(cfg: Config, ads: seq<(Id, Id)>, today: int)
    ensures forall r, ev :: (r, ev) in Cells(ads, today) <==> r in D.Rows(Active(cfg, ads), today)
  {
    var active := Active(cfg, ads);
    forall r, ev ensures (r, ev) in Cells(ads, today) <==> r in D.Rows(active, today) {
      CellsExact(ads, today, r, ev);
      if a :| a in ads && (r == Row(a.0, today) || r == Row(a.0, today - 1)) {
        var j :| 0 <= j < |ads| && ads[j] == a;
        assert active[j] in active;
      }
      if x :| x in active && (r == Row(x.id, today) || r == Row(x.id, today - 1)) {
        var j :| 0 <= j < |active| && active[j] == x;
        assert ads[j] in ads;
      }
    }
  }

  lemma MovedIsWithout(db: Db, d: Db, deltas: Tally, cells: set<(Row, Event)>, rows: set<Row>)
    requires Moved(db, d, map[], deltas, cells) && forall r, ev :: (r, ev) in cells <==> r in rows
    ensures D.Without(db, d, rows)
    ensures forall r, ev :: Cell(deltas, r, ev) == if r in rows then NumAt(db, Counter(r.ad, ev, r.day)) else 0
  {
  }

  /** Draining leaves the budget counters, and the loaded capped campaigns are those with a cap. */
  lemma SpentAreSpent(cfg: Config, ads: seq<(Id, Id)>, db: Db, d: Db, capped: set<Id>, rows: set<Row>)
    requires D.Without(db, d, rows) && capped == set a | a in ads && cfg.Cap(a.1) > 0 :: a.1
    ensures forall c :: c in capped && IsSpent(cfg, d, c) <==> c in D.SpentAmong(db, D.Caps(Active(cfg, ads)))
  {
    var active := Active(cfg, ads);
    forall c ensures c in capped <==> c in D.Caps(active)
      ensures c in D.Caps(active) ==> D.Caps(active)[c] == cfg.Cap(c)
    {
      D.CapsExact(active, c, cfg.Cap(c));
      if x :| x in active && x.campaign == c {
        var j :| 0 <= j < |active| && active[j] == x;
        assert ads[j] in ads;
      }
      if a :| a in ads && a.1 == c {
        var j :| 0 <= j < |ads| && ads[j] == a;
        assert active[j] in active;
      }
    }
    D.SpentStays(db, d, rows, D.Caps(active));
  }

  lemma TickSteps(cfg: Config, s: State, i: nat, ads: seq<(Id, Id)>)
    returns (steps: seq<Step>, s': State, deltas: Tally, capped: set<Id>)
    requires Busy(s, i, Loading) && s.workers[i].deltas == map[] && CountersPlain(s.db) && ads != []
    ensures Leads(cfg, s, steps, s') && Busy(s', i, Releasing)
    ensures Moved(s.db, s'.db, map[], deltas, set c | c in Cells(ads, s.now / MS_PER_DAY))
    ensures forall r, ev :: Cell(s'.stats, r, ev) == Cell(s.stats, r, ev) + Cell(deltas, r, ev)
    ensures capped == (set a | a in ads && cfg.Cap(a.1) > 0 :: a.1)
    ensures Completes(cfg, s'.db, s.completed, s'.completed, capped)
  {
    var cells := Cells(ads, s.now / MS_PER_DAY);
    steps, s' := Then(cfg, s, [], s, WorkOf(i, Load(ads)));
    capped := s'.workers[i].campaigns;
    steps, s' := DrainAll(cfg, s, steps, s', i, cells, s.db, map[], {});
    deltas := s'.workers[i].deltas;
    assert {} + (set c | c in cells) == set c | c in cells;
    steps, s' := UpsertAll(cfg, s, steps, s', i);
    steps, s' := ReconcileAll(cfg, s, steps, s', i, capped);
  }

  /** A worker that has the lock, meets no failure and is not interfered with has the effect of Drainer.Tick. */
  lemma TickIsARun(cfg: Config, s: State, i: nat, ads: seq<(Id, Id)>) returns (steps: seq<Step>, s': State)
    requires Busy(s, i, Loading) && s.workers[i].deltas == map[] && CountersPlain(s.db) && ads != []
    ensures After(cfg, s, steps) == Some(s') && Busy(s', i, Releasing)
    ensures Ticked(s, s', Active(cfg, ads))
  {
    var deltas, capped;
    steps, s', deltas, capped := TickSteps(cfg, s, i, ads);
    var today := s.now / MS_PER_DAY;
    var rows := D.Rows(Active(cfg, ads), today);
    RowsAreCells(cfg, ads, today);
    MovedIsWithout(s.db, s'.db, deltas, (set c | c in Cells(ads, today)), rows);
    SpentAreSpent(cfg, ads, s.db, s'.db, capped, rows);
  }

  /** The lock's steps in numbers: a tick has 45 seconds, the lock lives 60, is taken exactly if it is free, and is
      given back exactly if it is still one's own. */
  lemma LockStepsExact(cfg: Config, s: State, i: nat)
    requires i < |s.workers| && cfg.useLock
    ensures var w := s.workers[i];
            && (WorkEnabled(cfg, s, i, Begin) ==>
                  WorkNext(cfg, s, i, Begin).workers[i] == w.(phase := Acquiring, deadline := s.now + 45_000))
            && (WorkEnabled(cfg, s, i, Acquire(Ok)) && WorkerLock in s.db ==>
                  && WorkNext(cfg, s, i, Acquire(Ok)).db == s.db
                  && WorkNext(cfg, s, i, Acquire(Ok)).workers[i].phase == Idle)
            && (WorkEnabled(cfg, s, i, Acquire(Ok)) && WorkerLock !in s.db ==>
                  && WorkNext(cfg, s, i, Acquire(Ok)).workers[i].phase == Loading
                  && WorkNext(cfg, s, i, Acquire(Ok)).db ==
                     s.db[WorkerLock := Entry(Token(w.id), Some(s.now + 60_000))])
            && (WorkEnabled(cfg, s, i, Release(Ok)) && WorkerLock in s.db ==>
                  (WorkerLock in WorkNext(cfg, s, i, Release(Ok)).db <==> s.db[WorkerLock].value != Token(w.id)))
  {
  }

  /** The parts of the world a command acts on. */
  ghost predicate SameWorld(s: State, t: State) {
    s.db == t.db && s.stats == t.stats && s.completed == t.completed
  }

  /** A command whose reply is lost has acted like one that was answered, and one that failed has not acted. */
  lemma TrackRepliesExact(cfg: Config, s: State, i: nat, r: Reply)
    requires r == Lost || r == Failed
    ensures TrackEnabled(cfg, s, i, ClaimEvent(r)) ==>
              SameWorld(TrackNext(cfg, s, i, ClaimEvent(r)),
                        if r == Lost then TrackNext(cfg, s, i, ClaimEvent(Ok)) else s)
    ensures TrackEnabled(cfg, s, i, Count(r)) ==>
              SameWorld(TrackNext(cfg, s, i, Count(r)), if r == Lost then TrackNext(cfg, s, i, Count(Ok)) else s)
  {
  }

  lemma VastRepliesExact(cfg: Config, s: State, i: nat, r: Reply)
    requires r == Lost || r == Failed
    ensures VastEnabled(cfg, s, i, Consume(r)) ==>
              SameWorld(VastNext(cfg, s, i, Consume(r)), if r == Lost then VastNext(cfg, s, i, Consume(Ok)) else s)
    ensures VastEnabled(cfg, s, i, Reserve(r)) ==>
              SameWorld(VastNext(cfg, s, i, Reserve(r)), if r == Lost then VastNext(cfg, s, i, Reserve(Ok)) else s)
  {
  }

  /** The same for a worker's commands; one that is late has not acted yet, and acts the same when it lands. */
  lemma DrainRepliesExact(cfg: Config, s: State, i: nat, r: Reply)
    requires r != Ok && WorkEnabled(cfg, s, i, Drain(r))
    ensures SameWorld(WorkNext(cfg, s, i, Drain(r)), if r == Lost then WorkNext(cfg, s, i, Drain(Ok)) else s)
    ensures var cell := s.workers[i].phase.todo[0];
            && Landed(s, SentDrain(cell.0, cell.1)).db == WorkNext(cfg, s, i, Drain(Ok)).db
            && (r == Late ==> WorkNext(cfg, s, i, Drain(r)).sent == s.sent + [SentDrain(cell.0, cell.1)])
  {
  }

  lemma UpsertRepliesExact(s: State, w: Worker, row: Row, r: Reply)
    requires row in w.deltas && AnyNonZero(w.deltas[row]) && r in {Lost, Failed, Late}
    ensures var e, x := UpsertEffect(s, w, row, r), SentUpsert(row, w.deltas[row]);
            && e.db == s.db && e.completed == s.completed
            && e.stats == (if r == Lost then UpsertEffect(s, w, row, Ok).stats else s.stats)
            && UpsertEffect(s, w, row, Ok).stats == Landed(s, x).stats == AddRows(s.stats, map[row := w.deltas[row]])
            && (r == Late ==> e.sent == s.sent + [x])
  {
  }

  lemma PauseRepliesExact(cfg: Config, s: State, i: nat, r: Reply)
    requires r != Ok && WorkEnabled(cfg, s, i, Pause(r))
    ensures SameWorld(WorkNext(cfg, s, i, Pause(r)), if r == Lost then WorkNext(cfg, s, i, Pause(Ok)) else s)
    ensures WorkNext(cfg, s, i, Pause(Ok)).completed == s.completed + {s.workers[i].phase.c}
    ensures Landed(s, SentPause(s.workers[i].phase.c)).completed == s.completed + {s.workers[i].phase.c}
    ensures r == Late ==> WorkNext(cfg, s, i, Pause(r)).sent == s.sent + [SentPause(s.workers[i].phase.c)]
  {
  }

  lemma AcquireRepliesExact(cfg: Config, s: State, i: nat, r: Reply)
    requires r != Ok && cfg.useLock && WorkEnabled(cfg, s, i, Acquire(r))
    ensures SameWorld(WorkNext(cfg, s, i, Acquire(r)), if r == Lost then WorkNext(cfg, s, i, Acquire(Ok)) else s)
    ensures WorkNext(cfg, s, i, Acquire(r)).workers[i].phase == Idle
  {
  }

  lemma ReleaseRepliesExact(cfg: Config, s: State, i: nat, r: Reply)
    requires r != Ok && WorkEnabled(cfg, s, i, Release(r))
    ensures SameWorld(WorkNext(cfg, s, i, Release(r)), if r == Lost then WorkNext(cfg, s, i, Release(Ok)) else s)
  {
  }

  /** A tick that runs out of time, and a process that dies, lose whatever they hold, and touch nothing else. */
  lemma ForfeitExact(cfg: Config, s: State, i: nat, t: WorkStep, r: Row, ev: Event)
    requires (t == Timeout || t == Crash) && WorkEnabled(cfg, s, i, t)
    ensures var w, s' := s.workers[i], WorkNext(cfg, s, i, t);
            && s'.workers[i].deltas == map[] && s'.workers[i].phase == (if t == Crash then Dead else Idle)
            && Cell(s'.hist.lost, r, ev) == Cell(s.hist.lost, r, ev) + Cell(w.deltas, r, ev)
            && SameWorld(s', s) && s'.sent == s.sent && s'.releases == s.releases
  {
    AddRowsCell(s.hist.lost, s.workers[i].deltas, r, ev);
  }

  /** What the protocol does not rule out: time always passes, clients always send, a process dies at any moment, a
      command in flight lands or is lost at any moment, every command of a tick still in time ends in any of the
      four ways, and a handler that may still retry may take any candidate whose rule is within the bounds. */
  lemma NothingRuledOut(cfg: Config, s: State, ms: nat, px: Pixel, user: Id, c: Cand, r: Reply, i: nat)
    requires !r.NoScript?
    ensures Enabled(cfg, s, Env(Advance(ms))) && Enabled(cfg, s, Env(FetchPixel(px)))
    ensures Enabled(cfg, s, Env(RequestAd(user)))
    ensures i < |s.sent| ==> Enabled(cfg, s, Env(Land(i))) && Enabled(cfg, s, Env(Lose(i)))
    ensures i < |s.tracks| ==> Enabled(cfg, s, TrackOf(i, DropTrack))
    ensures i < |s.tracks| && s.tracks[i].phase.Dated? && !r.Late? ==> Enabled(cfg, s, TrackOf(i, Count(r)))
    ensures i < |s.vasts| ==> Enabled(cfg, s, VastOf(i, DropVast))
    ensures i < |s.vasts| && s.vasts[i].phase.Choosing? && s.vasts[i].attempts < 5
            && (c.freqCap > 0 ==> c.freqCap <= cfg.maxCap && c.window > 0 && cfg.minWindow <= 1000 * c.window) ==>
              Enabled(cfg, s, VastOf(i, Pick(c)))
    ensures i < |s.vasts| && s.vasts[i].phase.FreqCall? && !r.Late? ==> Enabled(cfg, s, VastOf(i, Consume(r)))
    ensures i < |s.vasts| && s.vasts[i].phase.BudgetCall? && !r.Late? ==> Enabled(cfg, s, VastOf(i, Reserve(r)))
    ensures i < |s.workers| && !s.workers[i].phase.Dead? ==> Enabled(cfg, s, WorkOf(i, Crash))
    ensures i < |s.workers| && s.now <= s.workers[i].deadline ==>
              var w := s.workers[i];
              && (w.phase.Acquiring? ==> Enabled(cfg, s, WorkOf(i, Acquire(r))))
              && (w.phase.Draining? && w.phase.todo != [] ==> Enabled(cfg, s, WorkOf(i, Drain(r))))
              && (w.phase.Upserting? ==> forall row <- w.deltas :: Enabled(cfg, s, WorkOf(i, Upsert(row, r))))
              && (w.phase.Pausing? ==> Enabled(cfg, s, WorkOf(i, Pause(r))))
              && (w.phase.Releasing? ==> Enabled(cfg, s, WorkOf(i, Release(r))))
  {
  }

  // --- One attempt of a /vast request -------------------------------------------------------------

  /** How TryConsume ends, for the reply r of its script. */
  function FreqReplyOf(db: Db, user: Id, c: Cand, r: Reply): (f: V.FreqReply) {
    if !r.Ok? then V.FreqError else if NumAt(db, FreqCount(user, c.ad)) < c.freqCap then V.Consumed else V.CapExceeded
  }

  /** How TryReserve ends, for the reply r of its script. */
  function BudgetReplyOf(cfg: Config, db: Db, c: Cand, r: Reply): (b: V.BudgetReply) {
    if !r.Ok? then V.BudgetError
    else if c.campaign in cfg.limits && 0 < cfg.limits[c.campaign] <= NumAt(db, ImpsTotal(c.campaign)) then V.Exhausted
    else V.Reserved
  }

  /** The phase a verdict leads to: on to the next candidate, to rendering, or to an empty response. */
  function PhaseOf(v: V.Verdict, c: Cand): (p: VastPhase) {
    match v
    case Reject => Choosing
    case Accept => Holding(c)
    case Abort => Ended
  }

  lemma ConsumePhase(s: State, q: Vast, c: Cand, r: Reply)
    requires !r.NoScript? && !r.Late? && c.freqCap > 0 && Positive(s.db, FreqCount(q.user, c.ad))
    ensures ConsumeEffect(s, q, c, r).phase ==
            (if FreqReplyOf(s.db, q.user, c, r) == V.CapExceeded then Choosing else BudgetCall(c, false))
  {
    FreqScriptExact(s.db, FreqCount(q.user, c.ad), c.freqCap, c.window, s.now);
  }

  lemma ReservePhase(cfg: Config, s: State, q: Vast, c: Cand, r: Reply)
    requires !r.NoScript? && !r.Late? && Positive(s.db, ImpsTotal(c.campaign))
    ensures ReserveEffect(cfg, s, q, c, r).phase ==
            (match BudgetReplyOf(cfg, s.db, c, r)
             case Reserved => Holding(c)
             case Exhausted => Choosing
             case BudgetError => Ended)
  {
    BudgetScriptExact(s.db, ImpsTotal(c.campaign), cfg.Cap(c.campaign));
  }

  /** Picking an ad in the protocol, and asking the frequency script and, if let through, the budget script, ends as
      the verdict of Delivery on the same answers. */
  lemma AttemptIsARun(cfg: Config, s: State, i: nat, c: Cand, rf: Reply, rb: Reply, env: V.Env, k: nat, a: nat)
    returns (steps: seq<Step>, s': State)
    requires VastEnabled(cfg, s, i, Pick(c)) && Plain(rf) && Plain(rb)
    requires Positive(s.db, FreqCount(s.vasts[i].user, c.ad)) && Positive(s.db, ImpsTotal(c.campaign))
    requires k < |env.answers| && a < |env.ads| && env.freqOn && env.ads[a].capMaxImpressions == c.freqCap
    requires env.answers[k] == V.Answer(FreqReplyOf(s.db, s.vasts[i].user, c, rf), BudgetReplyOf(cfg, s.db, c, rb))
    ensures After(cfg, s, steps) == Some(s') && i < |s'.vasts|
    ensures s'.vasts[i].phase == PhaseOf(env.VerdictAt(k, a), c)
  {
    steps, s' := FreqStage(cfg, s, i, c, rf);
    if s'.vasts[i].phase.BudgetCall? {
      ReservePhase(cfg, s', s'.vasts[i], c, rb);
      steps, s' := Then(cfg, s, steps, s', VastOf(i, Reserve(rb)));
    }
  }

  lemma FreqStage(cfg: Config, s: State, i: nat, c: Cand, rf: Reply) returns (steps: seq<Step>, s': State)
    requires VastEnabled(cfg, s, i, Pick(c)) && Plain(rf)
    requires Positive(s.db, FreqCount(s.vasts[i].user, c.ad)) && Positive(s.db, ImpsTotal(c.campaign))
    ensures Leads(cfg, s, steps, s') && i < |s'.vasts|
    ensures s'.vasts[i].phase ==
            if c.freqCap > 0 && FreqReplyOf(s.db, s.vasts[i].user, c, rf) == V.CapExceeded then Choosing
            else BudgetCall(c, false)
    ensures var key := ImpsTotal(c.campaign); NumAt(s'.db, key) == NumAt(s.db, key) && Positive(s'.db, key)
  {
    steps, s' := Then(cfg, s, [], s, VastOf(i, Pick(c)));
    if c.freqCap > 0 {
      ConsumePhase(s', s'.vasts[i], c, rf);
      VastOneKey(cfg, s', i, Consume(rf));
      steps, s' := Then(cfg, s, steps, s', VastOf(i, Consume(rf)));
    }
  }

  /** Rendering mints one impression of the held ad at this moment and counts one response for its campaign. */
  lemma RenderExact(cfg: Config, s: State, i: nat, imp: Id)
    requires VastEnabled(cfg, s, i, Render(true, imp))
    ensures var a, s' := s.vasts[i].phase.c, VastNext(cfg, s, i, Render(true, imp));
            && s'.minted == s.minted[imp := Mint(a.ad, s.now)] && s'.db == s.db && s'.vasts[i].phase == Ended
            && NatAt(s'.hist.inlined, a.campaign) == NatAt(s.hist.inlined, a.campaign) + 1
  {
  }
}
