/** The Redis keys the system uses, the commands on them, and the three Lua scripts: as functions on the store,
    and as methods of a server that runs them command by command. */
module Redis {
  import opened Options
  import opened Events

  type Id = string

  /** Key names by family; module Keys shows that their strings never collide. */
  datatype Key =
    | Counter(ad: Id, ev: Event, day: int)
    | Claim(imp: Id, ev: Event)
    | ImpsTotal(campaign: Id)
    | FreqCount(user: Id, adId: Id)
    | WorkerLock

  datatype Value = Num(n: int) | Token(owner: Id)

  /** expires: the first millisecond from which the server may drop the key. */
  datatype Entry = Entry(value: Value, expires: Option<int>)

  type Db = map<Key, Entry>

  function NumAt(db: Db, k: Key): (n: int) {
    if k in db && db[k].value.Num? then db[k].value.n else 0
  }

  // --- Commands -----------------------------------------------------------------------------------

  function PutNum(db: Db, k: Key, n: int): (d: Db) {
    db[k := Entry(Num(n), if k in db then db[k].expires else None)]
  }

  function Incr(db: Db, k: Key): (d: Db) {
    PutNum(db, k, NumAt(db, k) + 1)
  }

  function Decr(db: Db, k: Key): (d: Db) {
    PutNum(db, k, NumAt(db, k) - 1)
  }

  function Del(db: Db, k: Key): (d: Db) {
    db - {k}
  }

  /** EXPIRE with a non-positive time deletes the key at once. */
  function Expire(db: Db, k: Key, now: int, seconds: int): (d: Db) {
    if k !in db then db
    else if seconds <= 0 then Del(db, k)
    else db[k := db[k].(expires := Some(now + 1000 * seconds))]
  }

  /** SET NX PX */
  function SetNx(db: Db, k: Key, v: Value, expires: int): (d: Db) {
    if k in db then db else db[k := Entry(v, Some(expires))]
  }

  // --- Scripts ------------------------------------------------------------------------------------

  /** budgetScript: the store after it and its reply, -1 when the cap is hit. */
  function BudgetScript(db: Db, k: Key, cap: int): (r: (Db, int)) {
    var d := Incr(db, k);
    var n := NumAt(d, k);
    if cap > 0 && n > cap then (Decr(d, k), -1) else (d, n)
  }

  /** freqScript: INCR; EXPIRE when the key is new; DECR and -1 when the cap is hit. */
  function FreqScript(db: Db, k: Key, cap: int, window: int, now: int): (r: (Db, int)) {
    var d := Incr(db, k);
    var n := NumAt(d, k);
    var e := if n == 1 then Expire(d, k, now, window) else d;
    if cap > 0 && n > cap then (Decr(e, k), -1) else (e, n)
  }

  /** releaseScript: delete the lock only while it still holds this owner's token. */
  function ReleaseScript(db: Db, owner: Id): (d: Db) {
    if WorkerLock in db && db[WorkerLock].value == Token(owner) then Del(db, WorkerLock) else db
  }

  /** The counter of a budget or a frequency key, if present, is a positive number. */
  predicate Positive(db: Db, k: Key) {
    k in db ==> db[k].value.Num? && db[k].value.n > 0
  }

  function ExpiryOf(db: Db, k: Key): (e: Option<int>) {
    if k in db then db[k].expires else None
  }

  /** An accepted reservation adds one and stays within the cap; a rejected one leaves the counter as it was and
      only happens at the cap. Nothing else changes, and the counter's expiry is kept. */
  lemma BudgetScriptExact(db: Db, k: Key, cap: int)
    requires Positive(db, k)
    ensures var (d, n) := BudgetScript(db, k, cap);
            && (n == -1 <==> cap > 0 && NumAt(db, k) >= cap)
            && (n != -1 ==> n == NumAt(db, k) + 1 && d == db[k := Entry(Num(n), ExpiryOf(db, k))])
            && (n == -1 ==> d == db)
  {
  }

  /** With a positive cap: a new key starts at 1 and expires one window later, or at once for a window that is not
      positive; a live key below the cap gains one and keeps its expiry; at the cap nothing changes, so a rejection
      never extends the key's life. */
  lemma FreqScriptExact(db: Db, k: Key, cap: int, window: int, now: int)
    requires cap > 0 && Positive(db, k)
    ensures var (d, n) := FreqScript(db, k, cap, window, now);
            && (n == -1 <==> NumAt(db, k) >= cap)
            && (n == -1 ==> d == db)
            && (n != -1 && k !in db ==>
                  d == if window > 0 then db[k := Entry(Num(1), Some(now + 1000 * window))] else db)
            && (n != -1 && k in db ==> d == db[k := Entry(Num(NumAt(db, k) + 1), db[k].expires)])
  {
  }

  // --- The server ---------------------------------------------------------------------------------

  /** A server executing commands one at a time. A script runs without any other command in between. */
  class Server {
    var db: Db
    var now: int

    constructor (now: int)
      ensures db == map[] && this.now == now
    {
      db := map[];
      this.now := now;
    }

    method INCR(k: Key) returns (n: int)
      modifies this`db
      ensures db == Incr(old(db), k) && n == NumAt(db, k)
    {
      n := NumAt(db, k) + 1;
      db := PutNum(db, k, n);
    }

    method DECR(k: Key)
      modifies this`db
      ensures db == Decr(old(db), k)
    {
      db := PutNum(db, k, NumAt(db, k) - 1);
    }

    method EXPIRE(k: Key, seconds: int)
      modifies this`db
      ensures db == Expire(old(db), k, now, seconds)
    {
      if k in db {
        if seconds <= 0 {
          db := db - {k};
        } else {
          db := db[k := db[k].(expires := Some(now + 1000 * seconds))];
        }
      }
    }

    method GETDEL(k: Key) returns (v: Option<Value>)
      modifies this`db
      ensures db == Del(old(db), k)
      ensures v == if k in old(db) then Some(old(db)[k].value) else None
    {
      v := if k in db then Some(db[k].value) else None;
      db := db - {k};
    }

    method SETNX(k: Key, v: Value, ttl: int) returns (set_: bool)
      modifies this`db
      ensures db == SetNx(old(db), k, v, now + ttl)
      ensures set_ <==> k !in old(db)
    {
      set_ := k !in db;
      if set_ {
        db := db[k := Entry(v, Some(now + ttl))];
      }
    }

    /** budgetScript, line by line: accepted exactly while the cap, if any, has room, and then counted once; a
        rejection leaves no trace. */
    method RunBudgetScript(k: Key, cap: int) returns (reply: int)
      modifies this`db
      ensures Positive(old(db), k) ==>
                if cap <= 0 || NumAt(old(db), k) < cap then
                  reply == NumAt(old(db), k) + 1 && db == old(db)[k := Entry(Num(reply), ExpiryOf(old(db), k))]
                else reply == -1 && db == old(db)
      ensures (db, reply) == BudgetScript(old(db), k, cap)
    {
      if Positive(db, k) {
        BudgetScriptExact(db, k, cap);
      }
      var n := INCR(k);
      if cap > 0 && n > cap {
        DECR(k);
        return -1;
      }
      return n;
    }

    /** freqScript, line by line: accepted exactly below the cap; the first call of a life sets its end, a later one
        keeps it; a rejection leaves no trace. */
    method RunFreqScript(k: Key, cap: int, window: int) returns (reply: int)
      modifies this`db
      ensures cap > 0 && Positive(old(db), k) ==>
                if NumAt(old(db), k) >= cap then reply == -1 && db == old(db)
                else
                  && reply == NumAt(old(db), k) + 1
                  && db == if k in old(db) then old(db)[k := Entry(Num(reply), old(db)[k].expires)]
                           else if window > 0 then old(db)[k := Entry(Num(1), Some(now + 1000 * window))]
                           else old(db)
      ensures (db, reply) == FreqScript(old(db), k, cap, window, now)
    {
      if cap > 0 && Positive(db, k) {
        FreqScriptExact(db, k, cap, window, now);
      }
      var n := INCR(k);
      if n == 1 {
        EXPIRE(k, window);
      }
      if cap > 0 && n > cap {
        DECR(k);
        return -1;
      }
      return n;
    }

    /** releaseScript, line by line: the lock is gone exactly if it was free or this owner's; nothing else, and no
        other owner's lock, changes. */
    method RunReleaseScript(owner: Id)
      modifies this`db
      ensures WorkerLock in db <==> WorkerLock in old(db) && old(db)[WorkerLock].value != Token(owner)
      ensures WorkerLock in db ==> db[WorkerLock] == old(db)[WorkerLock]
      ensures forall k | k != WorkerLock :: (k in db <==> k in old(db)) && (k in db ==> db[k] == old(db)[k])
      ensures db == ReleaseScript(old(db), owner)
    {
      if WorkerLock in db && db[WorkerLock].value == Token(owner) {
        var _ := GETDEL(WorkerLock);
      }
    }
  }
}
