/** The two enforcers: one round trip by script digest, a second one with the script's text when Redis has
    forgotten it. */
module Capping {
  import opened Options
  import opened Redis

  /** How a round trip ends: the script ran and its reply came back; it ran and the reply was lost; Redis does not
      know the digest; or the command never got there. */
  datatype Trip = Answered | Unheard | NoScript | Unreachable
  {
    predicate Ran() { Answered? || Unheard? }
  }

  /** The script ran exactly once in the call, or not at all. */
  predicate RanOnce(sha: Trip, eval: Trip) {
    sha.Ran() || (sha.NoScript? && eval.Ran())
  }

  predicate Heard(sha: Trip, eval: Trip) {
    sha.Answered? || (sha.NoScript? && eval.Answered?)
  }

  datatype Reservation = Reserved(total: int) | Exhausted | BudgetError

  /** EVALSHA, or EVAL after NOSCRIPT. */
  method ReserveScript(server: Server, k: Key, cap: int, sha: Trip, eval: Trip) returns (reply: Option<int>)
    modifies server`db
    ensures if RanOnce(sha, eval) then
              var (d, n) := BudgetScript(old(server.db), k, cap);
              server.db == d && reply == if Heard(sha, eval) then Some(n) else None
            else
              server.db == old(server.db) && reply == None
  {
    reply := None;
    if sha.Ran() {
      var n := server.RunBudgetScript(k, cap);
      reply := if sha.Answered? then Some(n) else None;
    } else if sha.NoScript? && eval.Ran() {
      var n := server.RunBudgetScript(k, cap);
      reply := if eval.Answered? then Some(n) else None;
    }
  }

  /** A reservation is granted exactly when a reply came back and the cap (if positive) still had room; only a
      script that ran with room left takes anything, and then exactly one. */
  method TryReserve(server: Server, campaign: Id, cap: int, sha: Trip, eval: Trip) returns (r: Reservation)
    requires Positive(server.db, ImpsTotal(campaign))
    modifies server`db
    ensures var k, room := ImpsTotal(campaign), cap <= 0 || NumAt(old(server.db), ImpsTotal(campaign)) < cap;
            && r == (if sha == Answered || (sha == NoScript && eval == Answered) then
                       if room then Reserved(NumAt(old(server.db), k) + 1) else Exhausted
                     else BudgetError)
            && NumAt(server.db, k) == NumAt(old(server.db), k) +
                 (if room && (sha in {Answered, Unheard} || (sha == NoScript && eval in {Answered, Unheard}))
                  then 1 else 0)
            && Positive(server.db, k)
  {
    var reply := ReserveScript(server, ImpsTotal(campaign), cap, sha, eval);
    BudgetScriptExact(old(server.db), ImpsTotal(campaign), cap);
    r := match reply
         case None => BudgetError
         case Some(n) => if n == -1 then Exhausted else Reserved(n);
  }

  datatype Consumption = Consumed | CapExceeded | FreqError

  method ConsumeScript(server: Server, k: Key, cap: int, window: int, sha: Trip, eval: Trip)
    returns (reply: Option<int>)
    modifies server`db
    ensures if RanOnce(sha, eval) then
              var (d, n) := FreqScript(old(server.db), k, cap, window, server.now);
              server.db == d && reply == if Heard(sha, eval) then Some(n) else None
            else
              server.db == old(server.db) && reply == None
  {
    reply := None;
    if sha.Ran() {
      var n := server.RunFreqScript(k, cap, window);
      reply := if sha.Answered? then Some(n) else None;
    } else if sha.NoScript? && eval.Ran() {
      var n := server.RunFreqScript(k, cap, window);
      reply := if eval.Answered? then Some(n) else None;
    }
  }

  /** Without a cap rule nothing is asked and nothing is counted. With one, a call is admitted exactly below the
      cap; the first one starts the window, later ones neither move its end nor, when rejected, count. A window
      that is not positive forgets every call, and so admits all. */
  method TryConsume(server: Server, user: Id, ad: Id, cap: int, window: int, sha: Trip, eval: Trip)
    returns (r: Consumption)
    requires Positive(server.db, FreqCount(user, ad))
    modifies server`db
    ensures cap <= 0 ==> r == Consumed && server.db == old(server.db)
    ensures cap > 0 ==>
              var k, n := FreqCount(user, ad), NumAt(old(server.db), FreqCount(user, ad));
              && r == (if sha == Answered || (sha == NoScript && eval == Answered) then
                         if n < cap then Consumed else CapExceeded
                       else FreqError)
              && server.db ==
                   if n >= cap || !(sha in {Answered, Unheard} || (sha == NoScript && eval in {Answered, Unheard})) then
                     old(server.db)
                   else if k in old(server.db) then old(server.db)[k := Entry(Num(n + 1), old(server.db)[k].expires)]
                   else if window > 0 then old(server.db)[k := Entry(Num(1), Some(server.now + 1000 * window))]
                   else old(server.db)
  {
    if cap <= 0 {
      return Consumed;
    }
    var reply := ConsumeScript(server, FreqCount(user, ad), cap, window, sha, eval);
    FreqScriptExact(old(server.db), FreqCount(user, ad), cap, window, server.now);
    r := match reply
         case None => FreqError
         case Some(n) => if n == -1 then CapExceeded else Consumed;
  }
}
