/** The lock client and one tick of the worker process around the drain. */
module Worker {
  import opened Options
  import opened Events
  import opened Redis
  import opened Drainer
  import Protocol

  method TryAcquire(server: Server, id: Id) returns (ok: bool)
    modifies server`db
    ensures ok <==> WorkerLock !in old(server.db)
    ensures server.db == if ok then old(server.db)[WorkerLock := Entry(Token(id), Some(server.now + 60_000))]
                         else old(server.db)
  {
    ok := server.SETNX(WorkerLock, Token(id), Protocol.LOCK_TTL);
  }

  /** Deletes the lock only while it holds this worker's token. */
  method Release(server: Server, id: Id)
    modifies server`db
    ensures WorkerLock in server.db <==> WorkerLock in old(server.db) && old(server.db)[WorkerLock].value != Token(id)
    ensures server.db - {WorkerLock} == old(server.db) - {WorkerLock}
    ensures WorkerLock in server.db ==> server.db[WorkerLock] == old(server.db)[WorkerLock]
  {
    server.RunReleaseScript(id);
  }

  datatype TickResult = Done | Locked

  /** runTick without failures: a held lock is left alone, with everything else; otherwise the tick runs under the
      lock and hands it back, so that Redis is left as the drain alone would leave it. */
  method RunTick(server: Server, database: Database, id: Id, ads: seq<ActiveAd>, today: int)
    returns (result: TickResult)
    modifies server`db, database
    ensures result == Locked <==> WorkerLock in old(server.db)
    ensures result == Locked ==> server.db == old(server.db) && database.stats == old(database.stats)
                                 && database.status == old(database.status)
    ensures result == Done ==> Without(old(server.db), server.db, Rows(ads, today))
    ensures result == Done && ads == [] ==> database.stats == old(database.stats)
                                            && database.status == old(database.status)
    ensures result == Done && ads != [] ==>
              && Added(old(database.stats), database.stats, old(server.db), Rows(ads, today))
              && CompletedAre(old(database.status), database.status, SpentAmong(old(server.db), Caps(ads)))
  {
    var ok := TryAcquire(server, id);
    if !ok {
      return Locked;
    }
    ghost var held := server.db;
    var _ := Tick(server, database, ads, today);
    ghost var ticked := server.db;
    Release(server, id);
    ReleasedStore(old(server.db), held, ticked, server.db, Rows(ads, today));
    LockIrrelevant(old(server.db), held, old(database.stats), database.stats, Rows(ads, today), Caps(ads));
    return Done;
  }

  lemma ReleasedStore(db: Db, held: Db, ticked: Db, d: Db, rows: set<Row>)
    requires WorkerLock !in db && WorkerLock in held && held - {WorkerLock} == db
    requires Without(held, ticked, rows) || (rows == {} && ticked == held)
    requires WorkerLock !in d && d == ticked - {WorkerLock}
    ensures Without(db, d, rows)
  {
  }

  /** Holding the lock changes no counter. */
  lemma LockIrrelevant(db: Db, held: Db, stats: Stats, s: Stats, rows: set<Row>, caps: map<Id, int>)
    requires WorkerLock !in db && WorkerLock in held && held - {WorkerLock} == db
    ensures Added(stats, s, held, rows) ==> Added(stats, s, db, rows)
    ensures SpentAmong(held, caps) == SpentAmong(db, caps)
  {
  }
}
