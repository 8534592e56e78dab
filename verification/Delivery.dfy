/** One /vast request: the bounded retry loop around selection, and what its trace of candidates promises
    whatever Redis answers. */
module Delivery {
  import opened Options
  import opened Registry
  import opened Selection
  import opened SelectionTheorems

  const MAX_BUDGET_RETRIES := 5

  datatype FreqReply = Consumed | CapExceeded | FreqError
  datatype BudgetReply = Reserved | Exhausted | BudgetError

  /** What Redis would answer in one attempt. */
  datatype Answer = Answer(freq: FreqReply, budget: BudgetReply)

  datatype Verdict = Accept | Reject | Abort

  datatype NoFill = NoCandidate | RetriesSpent | RedisFailure | RenderFailure

  datatype Outcome = Inline(index: nat) | Empty(reason: NoFill)

  /** Everything one request depends on: the ads, per attempt the answers of Redis, and pick(excluded, attempt),
      the candidate selection yields. freqOn is false when no frequency enforcer is configured. */
  datatype Env = Env(ads: seq<Ad>, pick: (set<nat>, nat) -> Option<nat>, answers: seq<Answer>, freqOn: bool)
  {
    predicate Valid() {
      |answers| >= MAX_BUDGET_RETRIES
    }

    /** checkFreq: no rule, room under the rule, or a Redis error all let the candidate through. */
    predicate FreqPasses(k: nat, i: nat)
      requires k < |answers| && i < |ads|
    {
      !freqOn || ads[i].capMaxImpressions <= 0 || answers[k].freq != CapExceeded
    }

    /** One attempt: the frequency rule first, then the budget. */
    function VerdictAt(k: nat, i: nat): (v: Verdict)
      requires k < |answers| && i < |ads|
    {
      if !FreqPasses(k, i) then Reject
      else match answers[k].budget
        case Reserved => Accept
        case Exhausted => Reject
        case BudgetError => Abort
    }

    /** Attempt k picks tried[k] with everything before it excluded, and all but the last attempt were rejected. */
    ghost predicate IsTrace(tried: seq<nat>)
      requires Valid()
    {
      && |tried| <= MAX_BUDGET_RETRIES
      && (forall k | 0 <= k < |tried| :: tried[k] < |ads| && pick(Elements(tried[..k]), k) == Some(tried[k]))
      && (forall k | 0 <= k < |tried| - 1 :: VerdictAt(k, tried[k]) == Reject)
    }

    /** How the request ends after that trace. */
    ghost predicate Concludes(tried: seq<nat>, out: Outcome, renders: bool)
      requires Valid() && IsTrace(tried)
    {
      var n := |tried|;
      match out
      case Inline(i) => n > 0 && i == tried[n - 1] && VerdictAt(n - 1, i) == Accept && renders
      case Empty(RenderFailure) => n > 0 && VerdictAt(n - 1, tried[n - 1]) == Accept && !renders
      case Empty(RedisFailure) => n > 0 && VerdictAt(n - 1, tried[n - 1]) == Abort
      case Empty(RetriesSpent) => n == MAX_BUDGET_RETRIES && VerdictAt(n - 1, tried[n - 1]) == Reject
      case Empty(NoCandidate) =>
        && n < MAX_BUDGET_RETRIES
        && (n > 0 ==> VerdictAt(n - 1, tried[n - 1]) == Reject)
        && pick(Elements(tried), n) == None
    }
  }

  function Elements(tried: seq<nat>): (s: set<nat>) {
    set i | i in tried
  }

  /** The environment's picks are those of Select, each attempt with its own random source. */
  ghost predicate PicksBySelection(env: Env, ws: seq<real>, req: Request, rands: seq<Rand>) {
    && |ws| == |env.ads| && |rands| >= MAX_BUDGET_RETRIES
    && forall ex, k: nat {:trigger Selected(env.ads, ws, req.(excluded := ex), rands[k])} | k < MAX_BUDGET_RETRIES ::
         env.pick(ex, k) == Selected(env.ads, ws, req.(excluded := ex), rands[k])
  }

  // --- The loop -----------------------------------------------------------------------------------

  /** The scan for the candidate's index by pointer. */
  method IndexOf(ads: seq<Ad>, cand: Ad) returns (idx: int)
    requires Distinct(ads)
    ensures idx == -1 ==> cand !in ads
    ensures idx != -1 ==> 0 <= idx < |ads| && ads[idx] == cand
    ensures forall i | 0 <= i < |ads| && ads[i] == cand :: idx == i
  {
    for i := 0 to |ads|
      invariant forall j | 0 <= j < i :: ads[j] != cand
    {
      if ads[i] == cand {
        return i;
      }
    }
    return -1;
  }

  /** The verdict on the last candidate, as an outcome; None sends the loop round again. */
  function Verdicted(env: Env, tried: seq<nat>, rendered: bool): (out: Option<Outcome>)
    requires env.Valid() && env.IsTrace(tried) && tried != []
    ensures out == None ==> env.VerdictAt(|tried| - 1, tried[|tried| - 1]) == Reject
    ensures out.Some? ==> env.Concludes(tried, out.value, rendered)
  {
    var i := tried[|tried| - 1];
    match env.VerdictAt(|tried| - 1, i)
    case Reject => None
    case Abort => Some(Empty(RedisFailure))
    case Accept => Some(if rendered then Inline(i) else Empty(RenderFailure))
  }

  /** The loop goes on: everything tried so far was rejected and is excluded. */
  ghost predicate Underway(env: Env, tried: seq<nat>, excluded: set<nat>)
    requires env.Valid()
  {
    && env.IsTrace(tried) && excluded == Elements(tried)
    && (tried != [] ==> env.VerdictAt(|tried| - 1, tried[|tried| - 1]) == Reject)
  }

  ghost predicate Finished(env: Env, tried: seq<nat>, out: Outcome, renders: Ad -> bool)
    requires env.Valid()
  {
    env.IsTrace(tried) && env.Concludes(tried, out, tried != [] && renders(env.ads[tried[|tried| - 1]]))
  }

  /** ServeVAST from the selection loop on. tried records the candidate of each attempt. */
  method ServeVast(snap: Snapshot, s: Scratch, req: Request, rands: seq<Rand>, env: Env, renders: Ad -> bool)
    returns (out: Outcome, tried: seq<nat>)
    requires Ready(snap, s, AdWeights(snap.ads)) && Distinct(snap.ads)
    requires env.Valid() && env.ads == snap.ads && PicksBySelection(env, AdWeights(snap.ads), req, rands)
    modifies s.Repr()
    ensures env.IsTrace(tried)
    ensures env.Concludes(tried, out, tried != [] && renders(snap.ads[tried[|tried| - 1]]))
  {
    ghost var ws := AdWeights(snap.ads);
    var excluded: set<nat>, done: Option<Outcome> := {}, None;
    tried := [];
    for attempt := 0 to MAX_BUDGET_RETRIES
      modifies s.Repr()
      invariant Ready(snap, s, ws) && fresh(s.Repr() - old(s.Repr()))
      invariant |tried| == attempt && Underway(env, tried, excluded)
    {
      done, tried, excluded := Round(snap, s, req, rands, env, renders, tried, excluded, ws);
      if done.Some? {
        return done.value, tried;
      }
    }
    return Empty(RetriesSpent), tried;
  }

  /** One turn of the loop. */
  method Round(snap: Snapshot, s: Scratch, req: Request, rands: seq<Rand>, env: Env, renders: Ad -> bool,
               tried: seq<nat>, excluded: set<nat>, ghost ws: seq<real>)
    returns (done: Option<Outcome>, tried': seq<nat>, excluded': set<nat>)
    requires Ready(snap, s, ws) && Distinct(snap.ads) && env.Valid()
    requires env.ads == snap.ads && PicksBySelection(env, ws, req, rands)
    requires Underway(env, tried, excluded) && |tried| < MAX_BUDGET_RETRIES
    modifies s.Repr()
    ensures Ready(snap, s, ws) && fresh(s.Repr() - old(s.Repr()))
    ensures done == None ==> |tried'| == |tried| + 1 && Underway(env, tried', excluded')
    ensures done.Some? ==> Finished(env, tried', done.value, renders)
  {
    var idx := Attempt(snap, s, req, rands, env, tried, excluded, ws);
    if idx == -1 {
      NoneLeft(env, tried, excluded, renders);
      return Some(Empty(NoCandidate)), tried, excluded;
    }
    tried' := tried + [idx];
    done := Verdicted(env, tried', renders(snap.ads[idx]));
    excluded' := excluded + {idx};
    GoesOn(env, tried', excluded', renders);
  }

  lemma NoneLeft(env: Env, tried: seq<nat>, excluded: set<nat>, renders: Ad -> bool)
    requires env.Valid() && Underway(env, tried, excluded) && |tried| < MAX_BUDGET_RETRIES
    requires env.pick(excluded, |tried|) == None
    ensures Finished(env, tried, Empty(NoCandidate), renders)
  {
  }

  lemma GoesOn(env: Env, tried: seq<nat>, excluded: set<nat>, renders: Ad -> bool)
    requires env.Valid() && env.IsTrace(tried) && tried != [] && excluded == Elements(tried)
    ensures var done := Verdicted(env, tried, renders(env.ads[tried[|tried| - 1]]));
            && (done == None ==> Underway(env, tried, excluded))
            && (done.Some? ==> Finished(env, tried, done.value, renders))
  {
  }

  /** The snapshot is intact, its weights are ws, and the scratch shares nothing with it. */
  ghost predicate Ready(snap: Snapshot, s: Scratch, ws: seq<real>)
    reads snap.index, snap.index.Repr, s, snap.ads
  {
    ValidSnapshot(snap) && s.Valid() && s.Repr() !! snap.index.Repr && AdWeights(snap.ads) == ws
  }

  /** The next candidate of the trace; -1 when there is none. */
  method Attempt(snap: Snapshot, s: Scratch, req: Request, rands: seq<Rand>, ghost env: Env, tried: seq<nat>,
                 excluded: set<nat>, ghost ws: seq<real>)
    returns (idx: int)
    requires Ready(snap, s, ws) && Distinct(snap.ads) && env.Valid()
    requires env.ads == snap.ads && PicksBySelection(env, ws, req, rands)
    requires env.IsTrace(tried) && |tried| < MAX_BUDGET_RETRIES && excluded == Elements(tried)
    requires tried != [] ==> env.VerdictAt(|tried| - 1, tried[|tried| - 1]) == Reject
    modifies s.Repr()
    ensures Ready(snap, s, ws) && fresh(s.Repr() - old(s.Repr()))
    ensures idx == -1 ==> env.pick(excluded, |tried|) == None
    ensures idx != -1 ==>
              0 <= idx < |snap.ads| && env.IsTrace(tried + [idx]) && Elements(tried + [idx]) == excluded + {idx}
  {
    ghost var expected := Selected(env.ads, ws, req.(excluded := excluded), rands[|tried|]);
    assert env.pick(excluded, |tried|) == expected;
    var cand := Candidate(snap, s, req.(excluded := excluded), rands[|tried|], ws, expected);
    if cand == null {
      return -1;
    }
    idx := IndexOf(snap.ads, cand);
    Extend(env, tried, idx);
  }

  /** Select, with the scratch left ready for the next attempt. */
  method Candidate(snap: Snapshot, s: Scratch, req: Request, rand: Rand, ghost ws: seq<real>,
                   ghost expected: Option<nat>)
    returns (cand: Ad?)
    requires Ready(snap, s, ws)
    requires |ws| == |snap.ads| && Selected(snap.ads, ws, req, rand) == expected
    modifies s.Repr()
    ensures Ready(snap, s, ws) && fresh(s.Repr() - old(s.Repr()))
    ensures if expected == None then cand == null else expected.value < |snap.ads| && cand == snap.ads[expected.value]
  {
    cand := Select(snap, req, s, rand);
    assert unchanged(snap.index) && forall o <- snap.index.Repr :: unchanged(o);
  }

  lemma Extend(env: Env, tried: seq<nat>, i: nat)
    requires env.Valid() && env.IsTrace(tried) && |tried| < MAX_BUDGET_RETRIES && i < |env.ads|
    requires |tried| > 0 ==> env.VerdictAt(|tried| - 1, tried[|tried| - 1]) == Reject
    requires env.pick(Elements(tried), |tried|) == Some(i)
    ensures env.IsTrace(tried + [i]) && Elements(tried + [i]) == Elements(tried) + {i}
  {
    var next := tried + [i];
    assert next[..|tried|] == tried;
    forall k | 0 <= k < |tried|
      ensures next[k] < |env.ads| && env.pick(Elements(next[..k]), k) == Some(next[k])
    {
      assert next[..k] == tried[..k];
    }
  }

  // --- What every trace promises ------------------------------------------------------------------

  /** The selected ad passes the index and the filters, and none that passes has a higher priority. */
  lemma SelectedIsTop(ads: seq<Ad>, ws: seq<real>, req: Request, rand: Rand)
    requires |ws| == |ads|
    ensures Selected(ads, ws, req, rand) == None ==>
              forall j: nat | j < |ads| :: !Passes(ads, RouteOf(ads, req), req, j)
    ensures forall i :: Selected(ads, ws, req, rand) == Some(i) ==>
              i < |ads| && Passes(ads, RouteOf(ads, req), req, i)
              && forall j: nat | j < |ads| && Passes(ads, RouteOf(ads, req), req, j) ::
                   ads[j].priority <= ads[i].priority
  {
    var c := AllCandidates(ads, req);
    CandidatesExact(ads, RouteOf(ads, req), req, |ads|);
    if c == [] {
      forall j: nat | j < |ads|
        ensures !Passes(ads, RouteOf(ads, req), req, j)
      {
        assert j !in c;
      }
    } else {
      TopExact(ads, c);
      var i := Chosen(ads, ws, c, rand);
      assert i in Top(ads, c);
    }
  }

  /** A later pick is a candidate of every earlier attempt, so it is new and not more urgent than the earlier
      pick. */
  lemma LaterPick(ads: seq<Ad>, ws: seq<real>, req: Request, ex: set<nat>, ex': set<nat>, rand: Rand, rand': Rand,
                  i: nat, i': nat)
    requires |ws| == |ads| && ex <= ex' && i in ex'
    requires Selected(ads, ws, req.(excluded := ex), rand) == Some(i)
    requires Selected(ads, ws, req.(excluded := ex'), rand') == Some(i')
    ensures i < |ads| && i' < |ads| && i != i' && ads[i'].priority <= ads[i].priority
  {
    SelectedIsTop(ads, ws, req.(excluded := ex), rand);
    SelectedIsTop(ads, ws, req.(excluded := ex'), rand');
    assert RouteOf(ads, req.(excluded := ex)) == RouteOf(ads, req.(excluded := ex'));
    assert Passes(ads, RouteOf(ads, req.(excluded := ex)), req.(excluded := ex), i');
  }

  /** Candidates of one request are pairwise distinct, their priorities never increase, and there are at most
      five of them. */
  lemma TraceDescends(env: Env, ws: seq<real>, req: Request, rands: seq<Rand>, tried: seq<nat>)
    requires env.Valid() && PicksBySelection(env, ws, req, rands) && env.IsTrace(tried)
    ensures |tried| <= 5
    ensures forall k, l | 0 <= k < l < |tried| ::
              tried[k] != tried[l] && env.ads[tried[l]].priority <= env.ads[tried[k]].priority
  {
    forall k, l | 0 <= k < l < |tried|
      ensures tried[k] != tried[l] && env.ads[tried[l]].priority <= env.ads[tried[k]].priority
    {
      PickAtAttempt(env, ws, req, rands, tried, k);
      PickAtAttempt(env, ws, req, rands, tried, l);
      assert tried[k] in tried[..l] by { assert tried[..l][k] == tried[k]; }
      assert Elements(tried[..k]) <= Elements(tried[..l]) by { assert tried[..k] == tried[..l][..k]; }
      LaterPick(env.ads, ws, req, Elements(tried[..k]), Elements(tried[..l]), rands[k], rands[l], tried[k], tried[l]);
    }
  }

  lemma PickAtAttempt(env: Env, ws: seq<real>, req: Request, rands: seq<Rand>, tried: seq<nat>, k: nat)
    requires env.Valid() && PicksBySelection(env, ws, req, rands) && env.IsTrace(tried) && k < |tried|
    ensures Selected(env.ads, ws, req.(excluded := Elements(tried[..k])), rands[k]) == Some(tried[k])
  {
  }

  /** The frequency rule rejects the candidate of attempt k: enforcement is on, the ad has a rule, and Redis said so.
      No rule and a Redis error both let it through. */
  ghost predicate FreqRejects(env: Env, tried: seq<nat>, k: nat)
    requires k < |tried| && k < |env.answers| && tried[k] < |env.ads|
  {
    env.freqOn && env.ads[tried[k]].capMaxImpressions > 0 && env.answers[k].freq == CapExceeded
  }

  lemma VerdictExact(env: Env, tried: seq<nat>, k: nat)
    requires k < |tried| && k < |env.answers| && tried[k] < |env.ads|
    ensures var v := env.VerdictAt(k, tried[k]);
            && (v == Reject <==> FreqRejects(env, tried, k) || env.answers[k].budget == Exhausted)
            && (v == Accept <==> !FreqRejects(env, tried, k) && env.answers[k].budget == Reserved)
            && (v == Abort <==> !FreqRejects(env, tried, k) && env.answers[k].budget == BudgetError)
  {
  }

  /** Each attempt takes the selection without the candidates before it, and all but the last are rejected, by the
      frequency cap or for an exhausted budget. */
  lemma AttemptsExact(env: Env, ws: seq<real>, req: Request, rands: seq<Rand>, tried: seq<nat>)
    requires env.Valid() && PicksBySelection(env, ws, req, rands) && env.IsTrace(tried)
    ensures |tried| <= 5
    ensures forall k | 0 <= k < |tried| ::
              Selected(env.ads, ws, req.(excluded := set i | i in tried[..k]), rands[k]) == Some(tried[k])
    ensures forall k | 0 <= k < |tried| - 1 :: FreqRejects(env, tried, k) || env.answers[k].budget == Exhausted
  {
    forall k | 0 <= k < |tried|
      ensures Selected(env.ads, ws, req.(excluded := set i | i in tried[..k]), rands[k]) == Some(tried[k])
    {
      PickAtAttempt(env, ws, req, rands, tried, k);
      assert Elements(tried[..k]) == set i | i in tried[..k];
    }
    forall k | 0 <= k < |tried| - 1
      ensures FreqRejects(env, tried, k) || env.answers[k].budget == Exhausted
    {
      VerdictExact(env, tried, k);
    }
  }

  /** The ending is the one the last answer, or the lack of a candidate, calls for. */
  lemma EndingExact(env: Env, tried: seq<nat>, out: Outcome, renders: bool)
    requires env.Valid() && env.IsTrace(tried) && env.Concludes(tried, out, renders)
    ensures var n := |tried|;
            match out
            case Inline(i) =>
              && n > 0 && i == tried[n - 1] && renders
              && !FreqRejects(env, tried, n - 1) && env.answers[n - 1].budget == Reserved
            case Empty(RenderFailure) =>
              && n > 0 && !renders
              && !FreqRejects(env, tried, n - 1) && env.answers[n - 1].budget == Reserved
            case Empty(RedisFailure) =>
              n > 0 && !FreqRejects(env, tried, n - 1) && env.answers[n - 1].budget == BudgetError
            case Empty(RetriesSpent) =>
              n == 5 && (FreqRejects(env, tried, 4) || env.answers[4].budget == Exhausted)
            case Empty(NoCandidate) =>
              && n < 5 && (n > 0 ==> FreqRejects(env, tried, n - 1) || env.answers[n - 1].budget == Exhausted)
              && env.pick((set i | i in tried), n) == None
  {
    if tried != [] {
      VerdictExact(env, tried, |tried| - 1);
    }
    assert Elements(tried) == set i | i in tried;
  }

  /** At most one attempt of a request reserves budget, and it is the last. */
  lemma AtMostOneReservation(env: Env, tried: seq<nat>)
    requires env.Valid() && env.IsTrace(tried)
    ensures forall k | 0 <= k < |tried| && !FreqRejects(env, tried, k) && env.answers[k].budget == Reserved ::
              k == |tried| - 1
  {
    forall k | 0 <= k < |tried| - 1
      ensures FreqRejects(env, tried, k) || env.answers[k].budget == Exhausted
    {
      VerdictExact(env, tried, k);
    }
  }

  /** The ads a request could still be served after rejecting some. */
  predicate Open(ads: seq<Ad>, req: Request, rejected: seq<nat>, i: nat) {
    i < |ads| && Eligible(ads[i], req) && i !in rejected
  }

  /** Where the index covers the request, the served ad is of the highest priority among the eligible ads not
      rejected in this request, and it was let through by both caps. */
  lemma ServedAdIsBest(env: Env, ws: seq<real>, req: Request, rands: seq<Rand>, tried: seq<nat>, i: nat, renders: bool)
    requires env.Valid() && PicksBySelection(env, ws, req, rands) && env.IsTrace(tried)
    requires Covered(env.ads, req)
    requires env.Concludes(tried, Inline(i), renders)
    ensures var rejected := tried[..|tried| - 1];
            && Open(env.ads, req, rejected, i)
            && (forall j: nat | Open(env.ads, req, rejected, j) :: env.ads[j].priority <= env.ads[i].priority)
            && (forall k | 0 <= k < |rejected| :: FreqRejects(env, tried, k) || env.answers[k].budget == Exhausted)
            && !FreqRejects(env, tried, |tried| - 1) && env.answers[|tried| - 1].budget == Reserved
  {
    var k := |tried| - 1;
    var rejected := tried[..k];
    var req' := req.(excluded := Elements(rejected));
    PickAtAttempt(env, ws, req, rands, tried, k);
    SelectRefinesScan(env.ads, ws, req', rands[k]);
    forall j: nat
      ensures Open(env.ads, req, rejected, j) <==> Available(env.ads, req', j)
    {
    }
    EndingExact(env, tried, Inline(i), renders);
    AttemptsExact(env, ws, req, rands, tried);
  }

  /** An empty response for lack of a candidate comes after fewer than five attempts, all rejected, and means that
      every eligible ad was among them. */
  lemma NoFillIsExhaustive(env: Env, ws: seq<real>, req: Request, rands: seq<Rand>, tried: seq<nat>, renders: bool)
    requires env.Valid() && PicksBySelection(env, ws, req, rands) && env.IsTrace(tried)
    requires Covered(env.ads, req)
    requires env.Concludes(tried, Empty(NoCandidate), renders)
    ensures |tried| < 5
    ensures forall k | 0 <= k < |tried| :: FreqRejects(env, tried, k) || env.answers[k].budget == Exhausted
    ensures forall j: nat | j < |env.ads| && Eligible(env.ads[j], req) :: j in tried
  {
    var req' := req.(excluded := Elements(tried));
    assert Selected(env.ads, ws, req', rands[|tried|]) == None;
    SelectRefinesScan(env.ads, ws, req', rands[|tried|]);
    forall j: nat | j < |env.ads| && Eligible(env.ads[j], req)
      ensures j in tried
    {
      assert !Available(env.ads, req', j);
    }
    EndingExact(env, tried, Empty(NoCandidate), renders);
    AttemptsExact(env, ws, req, rands, tried);
  }
}
