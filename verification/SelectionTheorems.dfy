/** What the fast selection promises: it agrees with the naive scan, exactly when the index keys and the int32
    window allow it, and its draw partitions the weight range. */
module SelectionTheorems {
  import opened Options
  import opened Registry
  import opened Selection

  // --- When the int32 window is the ±2 window -----------------------------------------------------

  predicate OffsetInRange(at: int32) {
    -0x7FFF_FFFE <= at <= 0x7FFF_FFFD
  }

  /** The wrapping comparison is the ±2 window where neither end wraps; elsewhere it lets nothing through. */
  lemma WindowExact(offset: int32, at: int32)
    ensures InWindow(offset, at) <==> -0x7FFF_FFFE <= at <= 0x7FFF_FFFD && -2 <= offset - at <= 2
  {
  }

  /** So it is the ±2 window for every ad offset exactly when neither end wraps. */
  lemma WindowExactIff(at: int32)
    ensures (forall offset: int32 :: InWindow(offset, at) <==> -2 <= offset - at <= 2) <==>
            -0x7FFF_FFFE <= at <= 0x7FFF_FFFD
  {
    forall offset: int32 { WindowExact(offset, at); }
    if !OffsetInRange(at) {
      assert !InWindow(at, at);
    }
  }

  // --- When the index agrees with the targeting lists ---------------------------------------------

  predicate Lists(ads: seq<Ad>, dim: Dimension, name: string) {
    exists i :: 0 <= i < |ads| && name in Targets(ads[i], dim)
  }

  ghost predicate IndexAgrees(ads: seq<Ad>, dim: Dimension, name: string) {
    forall i | 0 <= i < |ads| :: InBucket(ads, Consulted(ads, dim, name), i) <==> Targeted(ads[i], dim, name)
  }

  /** A condition on the loaded ads and the request: a known name is answered by its own bucket; an unknown one
      by the wildcard bucket, which is right as long as no ad lists "*" itself; and the empty name needs "" and
      "*" to be listed by the same ads. */
  ghost predicate NameCovered(ads: seq<Ad>, dim: Dimension, name: string) {
    if name == "" then forall i | 0 <= i < |ads| :: "" in Targets(ads[i], dim) <==> WILDCARD_KEY in Targets(ads[i], dim)
    else Lists(ads, dim, name) || !Lists(ads, dim, WILDCARD_KEY)
  }

  lemma IndexAgreesIff(ads: seq<Ad>, dim: Dimension, name: string)
    requires dim != Position
    ensures IndexAgrees(ads, dim, name) <==> NameCovered(ads, dim, name)
  {
  }

  /** The index agrees on every possible request name exactly when no ad lists "" or "*". Loading removes "" but
      keeps "*". */
  lemma IndexAgreesAlwaysIff(ads: seq<Ad>, dim: Dimension)
    requires dim != Position
    ensures (forall name :: IndexAgrees(ads, dim, name)) <==> !Lists(ads, dim, "") && !Lists(ads, dim, "*")
  {
    if !Lists(ads, dim, "") && !Lists(ads, dim, WILDCARD_KEY) {
      forall name
        ensures IndexAgrees(ads, dim, name)
      {
        IndexAgreesIff(ads, dim, name);
      }
    } else if Lists(ads, dim, WILDCARD_KEY) {
      var name := UnlistedName(ads, dim, |ads|);
      LongestBounds(ads, dim, |ads|);
      assert !Lists(ads, dim, name);
      IndexAgreesIff(ads, dim, name);
      assert !IndexAgrees(ads, dim, name);
    } else {
      IndexAgreesIff(ads, dim, "");
      var i :| 0 <= i < |ads| && "" in Targets(ads[i], dim);
      assert !IndexAgrees(ads, dim, "");
    }
  }

  /** The length of the longest name listed by the first n ads. */
  ghost function Longest(ads: seq<Ad>, dim: Dimension, n: nat): (m: nat)
    requires n <= |ads|
  {
    if n == 0 then 0
    else
      var m, k := Longest(ads, dim, n - 1), LongestOf(Targets(ads[n - 1], dim));
      if m < k then k else m
  }

  ghost function LongestOf(names: seq<string>): (m: nat)
    ensures forall s <- names :: |s| <= m
  {
    if names == [] then 0
    else
      var m := LongestOf(names[1..]);
      if m < |names[0]| then |names[0]| else m
  }

  lemma {:induction false} LongestBounds(ads: seq<Ad>, dim: Dimension, n: nat)
    requires n <= |ads|
    ensures forall i, s | 0 <= i < n && s in Targets(ads[i], dim) :: |s| <= Longest(ads, dim, n)
  {
    if n > 0 {
      LongestBounds(ads, dim, n - 1);
    }
  }

  ghost function UnlistedName(ads: seq<Ad>, dim: Dimension, n: nat): (s: string)
    requires n <= |ads|
    ensures |s| > Longest(ads, dim, n)
  {
    seq(Longest(ads, dim, n) + 1, _ => 'X')
  }

  // --- Refinement of the naive scan ---------------------------------------------------------------

  ghost predicate Covered(ads: seq<Ad>, req: Request) {
    && NameCovered(ads, Country, req.country)
    && NameCovered(ads, Device, req.device)
    && (req.pos == "mid" ==> OffsetInRange(req.offset))
  }

  /** Ad i satisfies the request and has not been rejected in it. */
  predicate Available(ads: seq<Ad>, req: Request, i: nat) {
    i < |ads| && Eligible(ads[i], req) && i !in req.excluded
  }

  lemma CandidatesAreAvailable(ads: seq<Ad>, req: Request)
    requires Covered(ads, req)
    ensures forall i: nat :: i in AllCandidates(ads, req) <==> Available(ads, req, i)
  {
    var route := RouteOf(ads, req);
    CandidatesExact(ads, route, req, |ads|);
    IndexAgreesIff(ads, Country, req.country);
    IndexAgreesIff(ads, Device, req.device);
    forall i: nat
      ensures Passes(ads, route, req, i) <==> Available(ads, req, i)
    {
      if i < |ads| {
        assert InBucket(ads, route.country, i) <==> Targeted(ads[i], Country, req.country);
        assert InBucket(ads, route.device, i) <==> Targeted(ads[i], Device, req.device);
        assert InBucket(ads, route.pos, i) <==> EffectivePosition(ads[i]) == req.pos;
        WindowExact(ads[i].midRollOffset, req.offset);
      }
    }
  }

  /** Selection over the built index refines the naive scan: no ad exactly when none is available; otherwise an
      available ad of the highest priority among the available ones. */
  lemma SelectRefinesScan(ads: seq<Ad>, ws: seq<real>, req: Request, rand: Rand)
    requires |ws| == |ads| && Covered(ads, req)
    ensures Selected(ads, ws, req, rand) == None <==> forall i: nat :: !Available(ads, req, i)
    ensures forall i :: Selected(ads, ws, req, rand) == Some(i) ==>
              Available(ads, req, i) && forall j: nat | Available(ads, req, j) :: ads[j].priority <= ads[i].priority
  {
    var c := AllCandidates(ads, req);
    CandidatesAreAvailable(ads, req);
    if c == [] {
      forall i: nat
        ensures !Available(ads, req, i)
      {
        assert i !in c;
      }
    } else {
      assert c[0] in c;
      TopExact(ads, c);
      var i := Chosen(ads, ws, c, rand);
      assert i in Top(ads, c);
      forall j: nat | Available(ads, req, j)
        ensures ads[j].priority <= ads[i].priority
      {
        assert j in c;
      }
    }
  }

  // --- The draw -----------------------------------------------------------------------------------

  function Before(ws: seq<real>, k: nat): real
    requires k < |ws|
  {
    if k == 0 then 0.0 else Cumulative(ws)[k - 1]
  }

  /** A pick below the total lands on member k exactly inside an interval as long as its weight: from the running
      total before it (left open, except that the first member also owns 0) to the running total with it. */
  lemma DrawPartitions(ws: seq<real>, rand: Rand, k: nat)
    requires k < |ws| && 1 < |ws| && forall j | 0 <= j < |ws| :: ws[j] > 0.0
    requires 0.0 <= rand(Total(Cumulative(ws))) < Total(Cumulative(ws))
    ensures Cumulative(ws)[k] - Before(ws, k) == ws[k]
    ensures var pick := rand(Total(Cumulative(ws)));
            PickAt(ws, rand) == k <==> (k == 0 || Before(ws, k) < pick) && pick <= Cumulative(ws)[k]
  {
    var cum := Cumulative(ws);
    CumulativeStep(ws, k);
    assert StrictlyIncreasing(cum) by { CumulativeIncreases(ws); }
    ClampUnreachable(ws, rand(Total(cum)));
    SearchPartitions(cum, rand(Total(cum)), k);
  }

  lemma SearchPartitions(cum: seq<real>, x: real, k: nat)
    requires k < |cum| && StrictlyIncreasing(cum)
    ensures Search(cum, x) == k <==> (k == 0 || cum[k - 1] < x) && x <= cum[k]
    ensures Search(cum, x) == |cum| <==> x > cum[|cum| - 1]
  {
  }

  /** The clamp after the search is never needed. */
  lemma ClampUnreachable(ws: seq<real>, x: real)
    requires ws != [] && x <= Total(Cumulative(ws))
    ensures Search(Cumulative(ws), x) < |ws|
  {
  }

  // --- The draw, on the ads -----------------------------------------------------------------------

  function SumOf(us: seq<real>): real {
    if us == [] then 0.0 else us[0] + SumOf(us[1..])
  }

  lemma {:induction false} SumSplit(us: seq<real>, w: real)
    ensures SumOf(us + [w]) == SumOf(us) + w
  {
    if us == [] {
      assert [w][1..] == [];
    } else {
      assert (us + [w])[1..] == us[1..] + [w];
      SumSplit(us[1..], w);
    }
  }

  lemma {:induction false} CumulativeIsSum(us: seq<real>, k: nat)
    requires k < |us|
    ensures Cumulative(us)[k] == SumOf(us[..k + 1])
  {
    assert us[..k + 1] == us[..k] + [us[k]];
    SumSplit(us[..k], us[k]);
    CumulativeStep(us, k);
    if k > 0 {
      CumulativeIsSum(us, k - 1);
    }
  }

  predicate Ascends(t: seq<nat>) {
    forall a, b | 0 <= a < b < |t| :: t[a] < t[b]
  }

  lemma {:induction false} AscendingUnique(t: seq<nat>, v: seq<nat>)
    requires Ascends(t) && Ascends(v) && forall i: nat :: i in t <==> i in v
    ensures t == v
  {
    if t == [] && v != [] {
      var _ := SomeMember(v);
    } else if t != [] && v == [] {
      var _ := SomeMember(t);
    } else if t != [] {
      var m, n := |t| - 1, |v| - 1;
      assert t[m] in v && v[n] in t;
      assert t[m] == v[n];
      forall i: nat ensures i in t[..m] <==> i in v[..n] {
        LastIsLargest(t, i);
        LastIsLargest(v, i);
      }
      AscendingUnique(t[..m], v[..n]);
      assert t == t[..m] + [t[m]] && v == v[..n] + [v[n]];
    }
  }

  lemma SomeMember(t: seq<nat>) returns (i: nat)
    requires t != []
    ensures i in t
  {
    i := t[0];
  }

  lemma LastIsLargest(t: seq<nat>, i: nat)
    requires Ascends(t) && t != []
    ensures i in t[..|t| - 1] <==> i in t && i != t[|t| - 1]
  {
    var m := |t| - 1;
    assert t == t[..m] + [t[m]];
    if i in t[..m] {
      var a :| 0 <= a < m && t[..m][a] == i;
      assert t[a] < t[m];
    }
  }

  lemma {:induction false} CandidatesAscend(ads: seq<Ad>, route: Route, req: Request, n: nat)
    requires n <= |ads|
    ensures Ascends(Candidates(ads, route, req, n))
    ensures forall i <- Candidates(ads, route, req, n) :: i < n
  {
    if n > 0 {
      CandidatesAscend(ads, route, req, n - 1);
      var c := Candidates(ads, route, req, n - 1);
      forall a | 0 <= a < |c| ensures c[a] < n - 1 {
        assert c[a] in c;
      }
    }
  }

  lemma {:induction false} PriorityAscends(ads: seq<Ad>, c: seq<nat>, p: int32)
    requires InRange(ads, c) && Ascends(c)
    ensures Ascends(WithPriority(ads, c, p)) && forall i <- WithPriority(ads, c, p) :: i in c
  {
    if c != [] {
      PriorityAscends(ads, c[..|c| - 1], p);
      var w := WithPriority(ads, c[..|c| - 1], p);
      forall a | 0 <= a < |w| ensures w[a] < c[|c| - 1] {
        assert w[a] in c[..|c| - 1];
        LastIsLargest(c, w[a]);
        var b :| 0 <= b < |c| && c[b] == w[a];
      }
    }
  }

  /** The available ads of the highest priority. */
  ghost predicate IsTop(ads: seq<Ad>, req: Request, i: nat) {
    && i < |ads| && Eligible(ads[i], req) && i !in req.excluded
    && forall j: nat | j < |ads| && Eligible(ads[j], req) && j !in req.excluded :: ads[j].priority <= ads[i].priority
  }

  /** Which ad is selected, among the available ads t of the highest priority in index order, with weights u: the
      only one; or the one whose stretch of the running total holds the pick. */
  lemma SelectDrawsByWeight(ads: seq<Ad>, ws: seq<real>, req: Request, rand: Rand, t: seq<nat>, u: seq<real>, k: nat)
    requires |ws| == |ads| && Covered(ads, req) && forall i | 0 <= i < |ads| :: ws[i] > 0.0
    requires Ascends(t) && forall i: nat :: i in t <==> IsTop(ads, req, i)
    requires |u| == |t| && forall m | 0 <= m < |t| :: t[m] < |ads| && u[m] == ws[t[m]]
    requires k < |t| && (|t| > 1 ==> 0.0 <= rand(SumOf(u)) < SumOf(u))
    ensures Selected(ads, ws, req, rand) == Some(t[k]) <==>
            |t| == 1 || ((k == 0 || SumOf(u[..k]) < rand(SumOf(u))) && rand(SumOf(u)) <= SumOf(u[..k + 1]))
  {
    TopIsTop(ads, req, t);
    SelectedFromTop(ads, ws, req, rand, t, u);
    PickInTotals(u, rand, k);
    SamePlace(t, k, PickAt(u, rand));
  }

  lemma SamePlace(t: seq<nat>, a: nat, b: nat)
    requires Ascends(t) && a < |t| && b < |t|
    ensures t[a] == t[b] <==> a == b
  {
  }

  lemma SelectedFromTop(ads: seq<Ad>, ws: seq<real>, req: Request, rand: Rand, t: seq<nat>, u: seq<real>)
    requires |ws| == |ads| && t != [] && Top(ads, AllCandidates(ads, req)) == t
    requires |u| == |t| && forall m | 0 <= m < |t| :: t[m] < |ads| && u[m] == ws[t[m]]
    ensures Selected(ads, ws, req, rand) == Some(t[PickAt(u, rand)])
  {
    var c := AllCandidates(ads, req);
    TopExact(ads, c);
    assert t[0] in Top(ads, c);
    assert Weights(ws, t) == u;
  }

  lemma PickInTotals(u: seq<real>, rand: Rand, k: nat)
    requires k < |u| && forall m | 0 <= m < |u| :: u[m] > 0.0
    requires |u| > 1 ==> 0.0 <= rand(SumOf(u)) < SumOf(u)
    ensures PickAt(u, rand) == k <==>
            |u| == 1 || ((k == 0 || SumOf(u[..k]) < rand(SumOf(u))) && rand(SumOf(u)) <= SumOf(u[..k + 1]))
  {
    if |u| > 1 {
      TotalsAreSums(u, k);
      DrawPartitions(u, rand, k);
    }
  }

  lemma TotalsAreSums(u: seq<real>, k: nat)
    requires k < |u|
    ensures Total(Cumulative(u)) == SumOf(u) && Cumulative(u)[k] == SumOf(u[..k + 1]) && Before(u, k) == SumOf(u[..k])
  {
    CumulativeIsSum(u, |u| - 1);
    assert u[..|u|] == u;
    CumulativeIsSum(u, k);
    if k > 0 {
      CumulativeIsSum(u, k - 1);
    }
  }

  lemma TopIsTop(ads: seq<Ad>, req: Request, t: seq<nat>)
    requires Covered(ads, req)
    requires Ascends(t) && forall i: nat :: i in t <==> IsTop(ads, req, i)
    ensures Top(ads, AllCandidates(ads, req)) == t
  {
    var c := AllCandidates(ads, req);
    CandidatesAreAvailable(ads, req);
    CandidatesAscend(ads, RouteOf(ads, req), req, |ads|);
    PriorityAscends(ads, c, MaxPriority(ads, c));
    TopExact(ads, c);
    forall i: nat ensures i in Top(ads, c) <==> i in t {
      assert i in c <==> Available(ads, req, i);
      if IsTop(ads, req, i) {
        forall j | j in c ensures ads[j].priority <= ads[i].priority {
          assert Available(ads, req, j);
        }
      }
      if i in Top(ads, c) {
        forall j: nat | j < |ads| && Eligible(ads[j], req) && j !in req.excluded
          ensures ads[j].priority <= ads[i].priority
        {
          assert j in c;
        }
      }
    }
    AscendingUnique(Top(ads, c), t);
  }

  /** rand.Float64() in [0, 1) gives a pick in [0, total). */
  lemma UniformPick(u: real, total: real)
    requires 0.0 <= u < 1.0 && total > 0.0
    ensures 0.0 <= u * total < total
  {
  }
}
