/** Picking the ad to serve: the naive definition, the lookup it is computed from, and the fast selection over
    bitsets and reused buffers. */
module Selection {
  import opened Options
  import opened Bitset
  import opened Registry

  /** excluded: the ad indices rejected earlier in the same request. */
  datatype Request = Request(pos: string, offset: int32, country: string, device: string, excluded: set<nat>)

  const MID_ROLL_OFFSET_TOLERANCE := 2

  /** int32 arithmetic wraps around. */
  function Wrap32(x: int): (y: int32)
    ensures (y - x) % 0x1_0000_0000 == 0
  {
    (x + 0x8000_0000) % 0x1_0000_0000 - 0x8000_0000
  }

  // --- The naive definition -----------------------------------------------------------------------

  predicate Targeted(ad: Ad, dim: Dimension, name: string) {
    Targets(ad, dim) == [] || name in Targets(ad, dim)
  }

  /** What a request asks for, ad by ad, on the fields alone. */
  predicate Eligible(ad: Ad, req: Request) {
    && (if ad.positionType == "" then req.pos == "pre" else req.pos == ad.positionType)
    && (ad.countries == [] || req.country in ad.countries)
    && (ad.devices == [] || req.device in ad.devices)
    && (req.pos == "mid" ==> -2 <= ad.midRollOffset - req.offset <= 2)
  }

  // --- What the index answers ---------------------------------------------------------------------

  /** The mid-roll test as int32 arithmetic computes it. */
  predicate InWindow(offset: int32, at: int32) {
    !(offset < Wrap32(at - MID_ROLL_OFFSET_TOLERANCE) || offset > Wrap32(at + MID_ROLL_OFFSET_TOLERANCE))
  }

  /** The three buckets a request is answered from. */
  datatype Route = Route(pos: Key, country: Key, device: Key)

  function RouteOf(ads: seq<Ad>, req: Request): Route {
    Route(Key(Position, req.pos), Consulted(ads, Country, req.country), Consulted(ads, Device, req.device))
  }

  predicate Indexed(ads: seq<Ad>, route: Route, i: nat) {
    InBucket(ads, route.pos, i) && InBucket(ads, route.country, i) && InBucket(ads, route.device, i)
  }

  /** The callback's filters. */
  predicate Admitted(ads: seq<Ad>, req: Request, i: nat)
    requires i < |ads|
  {
    i !in req.excluded && (req.pos == "mid" ==> InWindow(ads[i].midRollOffset, req.offset))
  }

  /** Ad i gets past the index and the filters. */
  predicate Passes(ads: seq<Ad>, route: Route, req: Request, i: nat) {
    Indexed(ads, route, i) && Admitted(ads, req, i)
  }

  /** The candidates below n, ascending. */
  function Candidates(ads: seq<Ad>, route: Route, req: Request, n: nat): (c: seq<nat>)
    requires n <= |ads|
  {
    if n == 0 then []
    else Candidates(ads, route, req, n - 1) + (if Passes(ads, route, req, n - 1) then [n - 1] else [])
  }

  lemma {:induction false} CandidatesExact(ads: seq<Ad>, route: Route, req: Request, n: nat)
    requires n <= |ads|
    ensures InRange(ads, Candidates(ads, route, req, n)) && |Candidates(ads, route, req, n)| <= n
    ensures forall i: nat :: i in Candidates(ads, route, req, n) <==> i < n && Passes(ads, route, req, i)
  {
    if n > 0 {
      CandidatesExact(ads, route, req, n - 1);
    }
  }

  // --- Top priority -------------------------------------------------------------------------------

  predicate InRange(ads: seq<Ad>, c: seq<nat>) {
    forall k | 0 <= k < |c| :: c[k] < |ads|
  }

  /** The highest priority in the list, starting from the source's math.MinInt32. */
  function MaxPriority(ads: seq<Ad>, c: seq<nat>): (p: int32)
    requires InRange(ads, c)
  {
    if c == [] then -0x8000_0000
    else
      var p, q := MaxPriority(ads, c[..|c| - 1]), ads[c[|c| - 1]].priority;
      if q > p then q else p
  }

  lemma {:induction false} MaxPriorityExact(ads: seq<Ad>, c: seq<nat>)
    requires InRange(ads, c)
    ensures forall k | 0 <= k < |c| :: ads[c[k]].priority <= MaxPriority(ads, c)
    ensures c != [] ==> exists k :: 0 <= k < |c| && ads[c[k]].priority == MaxPriority(ads, c)
  {
    if c != [] {
      MaxPriorityExact(ads, c[..|c| - 1]);
      assert ads[c[|c| - 1]].priority <= MaxPriority(ads, c);
    }
  }

  function WithPriority(ads: seq<Ad>, c: seq<nat>, p: int32): (t: seq<nat>)
    requires InRange(ads, c)
  {
    if c == [] then []
    else
      var i := c[|c| - 1];
      WithPriority(ads, c[..|c| - 1], p) + (if ads[i].priority == p then [i] else [])
  }

  lemma {:induction false} WithPriorityExact(ads: seq<Ad>, c: seq<nat>, p: int32)
    requires InRange(ads, c)
    ensures InRange(ads, WithPriority(ads, c, p)) && |WithPriority(ads, c, p)| <= |c|
    ensures forall i :: i in WithPriority(ads, c, p) <==> i in c && ads[i].priority == p
  {
    if c != [] {
      WithPriorityExact(ads, c[..|c| - 1], p);
      assert c == c[..|c| - 1] + [c[|c| - 1]];
    }
  }

  /** The top-priority bucket. */
  function Top(ads: seq<Ad>, c: seq<nat>): (t: seq<nat>)
    requires InRange(ads, c)
  {
    WithPriority(ads, c, MaxPriority(ads, c))
  }

  lemma TopExact(ads: seq<Ad>, c: seq<nat>)
    requires InRange(ads, c)
    ensures InRange(ads, Top(ads, c)) && |Top(ads, c)| <= |c|
    ensures c != [] ==> Top(ads, c) != []
    ensures forall i :: i in Top(ads, c) <==> i in c && forall j <- c :: ads[j].priority <= ads[i].priority
  {
    var p := MaxPriority(ads, c);
    MaxPriorityExact(ads, c);
    WithPriorityExact(ads, c, p);
    if c != [] {
      var k :| 0 <= k < |c| && ads[c[k]].priority == p;
      assert c[k] in c;
      assert c[k] in Top(ads, c);
    }
  }

  // --- The weighted draw --------------------------------------------------------------------------

  function Total(cum: seq<real>): real {
    if cum == [] then 0.0 else cum[|cum| - 1]
  }

  /** A weight to draw with is positive, whatever the snapshot holds. */
  function Weight(ad: Ad): (w: real)
    reads ad
    ensures w > 0.0 && (ad.pacingWeight > 0.0 ==> w == ad.pacingWeight) && (ad.pacingWeight <= 0.0 ==> w == 1.0)
  {
    if ad.pacingWeight <= 0.0 then 1.0 else ad.pacingWeight
  }

  /** The effective weights of all ads: the pacing weight, or 1 where that is not positive. */
  function AdWeights(ads: seq<Ad>): (ws: seq<real>)
    reads ads
    ensures |ws| == |ads| && forall i | 0 <= i < |ads| :: ws[i] == Weight(ads[i])
  {
    if ads == [] then [] else AdWeights(ads[..|ads| - 1]) + [Weight(ads[|ads| - 1])]
  }

  predicate WithinWeights(ws: seq<real>, t: seq<nat>) {
    forall k | 0 <= k < |t| :: t[k] < |ws|
  }

  /** The weights of the members, in order. */
  function Weights(ws: seq<real>, t: seq<nat>): (us: seq<real>)
    requires WithinWeights(ws, t)
    ensures |us| == |t| && forall k | 0 <= k < |t| :: us[k] == ws[t[k]]
  {
    if t == [] then [] else Weights(ws, t[..|t| - 1]) + [ws[t[|t| - 1]]]
  }

  /** The running totals. */
  function Cumulative(ws: seq<real>): (cum: seq<real>)
    ensures |cum| == |ws|
  {
    if ws == [] then []
    else
      var cum := Cumulative(ws[..|ws| - 1]);
      cum + [Total(cum) + ws[|ws| - 1]]
  }

  predicate StrictlyIncreasing(cum: seq<real>) {
    && (forall k | 0 <= k < |cum| :: cum[k] > 0.0)
    && (forall k, l | 0 <= k < l < |cum| :: cum[k] < cum[l])
  }

  lemma {:induction false} CumulativeIncreases(ws: seq<real>)
    requires forall k | 0 <= k < |ws| :: ws[k] > 0.0
    ensures StrictlyIncreasing(Cumulative(ws))
  {
    if ws != [] {
      CumulativeIncreases(ws[..|ws| - 1]);
    }
  }

  lemma {:induction false} CumulativeStep(ws: seq<real>, k: nat)
    requires k < |ws|
    ensures Cumulative(ws)[k] == (if k == 0 then 0.0 else Cumulative(ws)[k - 1]) + ws[k]
  {
    if k < |ws| - 1 {
      CumulativeStep(ws[..|ws| - 1], k);
    }
  }

  /** sort.SearchFloat64s: the first position whose entry is at least x, or the length. */
  function Search(cum: seq<real>, x: real): (i: nat)
    ensures i <= |cum|
    ensures forall k | 0 <= k < i :: cum[k] < x
    ensures i < |cum| ==> cum[i] >= x
  {
    if cum == [] || cum[0] >= x then 0 else 1 + Search(cum[1..], x)
  }

  /** The position found for x, clamped to the last one. */
  function Located(cum: seq<real>, x: real): (k: nat)
    requires cum != []
    ensures k < |cum|
  {
    var i := Search(cum, x);
    if i >= |cum| then |cum| - 1 else i
  }

  /** The random pick for a given total: rand.Float64() * total. */
  type Rand = real -> real

  function PickAt(ws: seq<real>, rand: Rand): (k: nat)
    requires ws != []
    ensures k < |ws|
  {
    if |ws| == 1 then 0 else Located(Cumulative(ws), rand(Total(Cumulative(ws))))
  }

  function Chosen(ads: seq<Ad>, ws: seq<real>, c: seq<nat>, rand: Rand): (i: nat)
    requires |ws| == |ads| && InRange(ads, c) && c != []
    ensures i < |ads|
  {
    TopExact(ads, c);
    var t := Top(ads, c);
    t[PickAt(Weights(ws, t), rand)]
  }

  function AllCandidates(ads: seq<Ad>, req: Request): (c: seq<nat>)
    ensures InRange(ads, c)
  {
    CandidatesExact(ads, RouteOf(ads, req), req, |ads|);
    Candidates(ads, RouteOf(ads, req), req, |ads|)
  }

  /** The selected ad index, as a function of the ads, their weights, the request and the random source alone. */
  function Selected(ads: seq<Ad>, ws: seq<real>, req: Request, rand: Rand): (r: Option<nat>)
    requires |ws| == |ads|
    ensures r.Some? ==> r.value < |ads|
  {
    var c := AllCandidates(ads, req);
    if c == [] then None else Some(Chosen(ads, ws, c, rand))
  }

  // --- The fast form ------------------------------------------------------------------------------

  /** The per-request buffers. A Go slice is an array with a run length; capacity is the array's length. */
  class Scratch {
    var intersect: array<uint64>
    var intersectLen: nat
    var indices: array<nat>
    var indicesLen: nat
    var cumWeight: array<real>
    var cumLen: nat

    ghost predicate Valid()
      reads this
    {
      && intersectLen <= intersect.Length
      && indicesLen <= indices.Length
      && cumLen <= cumWeight.Length
    }

    ghost function Repr(): set<object>
      reads this
    {
      {this, intersect, indices, cumWeight}
    }

    constructor ()
      ensures Valid() && fresh(Repr())
    {
      intersect, intersectLen := new uint64[0], 0;
      indices, indicesLen := new nat[0], 0;
      cumWeight, cumLen := new real[0], 0;
    }

    /** reset: room for the request, whatever the previous one left behind. */
    method Reset(bitsetWords: nat, adsCount: nat)
      requires Valid()
      modifies Repr()
      ensures Valid() && fresh(Repr() - old(Repr()))
      ensures intersectLen == bitsetWords && forall w | 0 <= w < bitsetWords :: intersect[w] == 0
      ensures indicesLen == 0 && indices.Length >= adsCount
      ensures cumLen == 0 && cumWeight.Length >= adsCount
    {
      if intersect.Length < bitsetWords {
        intersect := new uint64[bitsetWords](_ => 0);
        intersectLen := bitsetWords;
      } else {
        intersectLen := bitsetWords;
        for i := 0 to intersectLen
          modifies intersect
          invariant forall w | 0 <= w < i :: intersect[w] == 0
        {
          intersect[i] := 0;
        }
      }
      if indices.Length < adsCount {
        indices := new nat[adsCount];
      }
      indicesLen := 0;
      if cumWeight.Length < adsCount {
        cumWeight := new real[adsCount];
      }
      cumLen := 0;
    }

    /** putScratch: trim the lengths, keep the capacities. */
    method Put()
      requires Valid()
      modifies this
      ensures Valid() && indicesLen == 0 && cumLen == 0
      ensures unchanged(`intersect, `indices, `cumWeight, `intersectLen)
    {
      indicesLen, cumLen := 0, 0;
    }
  }

  /** The first pass of topPriority. */
  method FindMax(ads: seq<Ad>, indices: array<nat>, n: nat) returns (maxPri: int32)
    requires n <= indices.Length && InRange(ads, indices[..n])
    ensures maxPri == MaxPriority(ads, indices[..n])
  {
    ghost var c := indices[..n];
    maxPri := -0x8000_0000;
    for k := 0 to n
      invariant maxPri == MaxPriority(ads, c[..k])
    {
      assert c[..k + 1][..k] == c[..k];
      var p := ads[indices[k]].priority;
      if p > maxPri {
        maxPri := p;
      }
    }
    assert c[..n] == c;
  }

  /** The second pass: move the indices of that priority to the front. */
  method Compact(ads: seq<Ad>, indices: array<nat>, n: nat, maxPri: int32) returns (m: nat)
    requires n <= indices.Length && InRange(ads, indices[..n])
    modifies indices
    ensures m <= n && indices[..m] == WithPriority(ads, old(indices[..n]), maxPri)
  {
    ghost var c := indices[..n];
    m := 0;
    for k := 0 to n
      invariant m <= k
      invariant forall q | k <= q < n :: indices[q] == c[q]
      invariant indices[..m] == WithPriority(ads, c[..k], maxPri)
    {
      assert c[..k + 1][..k] == c[..k];
      ghost var kept := indices[..m];
      var idx := indices[k];
      if ads[idx].priority == maxPri {
        indices[m] := idx;
        m := m + 1;
        assert indices[..m] == kept + [idx];
      }
    }
    assert c[..n] == c;
  }

  /** topPriority, in place: the new length of the compacted prefix. */
  method TopPriority(ads: seq<Ad>, indices: array<nat>, n: nat) returns (m: nat)
    requires n <= indices.Length && InRange(ads, indices[..n])
    modifies indices
    ensures m <= n && indices[..m] == Top(ads, old(indices[..n]))
  {
    if n == 0 {
      return 0;
    }
    var maxPri := FindMax(ads, indices, n);
    m := Compact(ads, indices, n, maxPri);
  }

  /** sort.SearchFloat64s over the first n entries. */
  method SearchFloats(a: array<real>, n: nat, x: real) returns (i: nat)
    requires n <= a.Length && StrictlyIncreasing(a[..n])
    ensures i == Search(a[..n], x)
  {
    var j := n;
    i := 0;
    while i < j
      invariant i <= j <= n
      invariant forall k | 0 <= k < i :: a[k] < x
      invariant forall k | j <= k < n :: a[k] >= x
    {
      var h := (i + j) / 2;
      if a[h] < x {
        assert forall k | 0 <= k < h :: a[..n][k] < a[..n][h];
        i := h + 1;
      } else {
        assert forall k | h < k < n :: a[..n][h] < a[..n][k];
        j := h;
      }
    }
    assert i < n ==> a[..n][i] >= x;
  }

  /** The callback's filters over the visited indices. */
  function Kept(ads: seq<Ad>, req: Request, visited: seq<nat>): (c: seq<nat>)
    requires InRange(ads, visited)
  {
    if visited == [] then []
    else
      var i := visited[|visited| - 1];
      Kept(ads, req, visited[..|visited| - 1]) + (if Admitted(ads, req, i) then [i] else [])
  }

  ghost predicate Intersects(ws: seq<uint64>, ads: seq<Ad>, route: Route) {
    |ws| == Words(|ads|)
    && forall i: nat {:trigger IsSet(ws, i)} | i < 64 * |ws| :: IsSet(ws, i) <==> Indexed(ads, route, i)
  }

  lemma {:induction false} KeptAreCandidates(ws: seq<uint64>, ads: seq<Ad>, route: Route, req: Request, n: nat)
    requires Intersects(ws, ads, route) && n <= |ads|
    ensures InRange(ads, MembersBelow(ws, n))
    ensures Kept(ads, req, MembersBelow(ws, n)) == Candidates(ads, route, req, n)
  {
    if n > 0 {
      KeptAreCandidates(ws, ads, route, req, n - 1);
      var front, all := MembersBelow(ws, n - 1), MembersBelow(ws, n);
      if IsSet(ws, n - 1) {
        KeptLast(ads, req, front, n - 1);
      } else {
        assert all == front;
      }
    }
  }

  lemma KeptLast(ads: seq<Ad>, req: Request, front: seq<nat>, i: nat)
    requires InRange(ads, front) && i < |ads|
    ensures Kept(ads, req, front + [i]) == Kept(ads, req, front) + (if Admitted(ads, req, i) then [i] else [])
  {
  }

  /** The walk over the intersection meets every candidate and never more indices than there are ads. */
  lemma WalkMeetsCandidates(ws: seq<uint64>, ads: seq<Ad>, route: Route, req: Request)
    requires Intersects(ws, ads, route)
    ensures InRange(ads, Members(ws)) && |Members(ws)| <= |ads|
    ensures Kept(ads, req, Members(ws)) == Candidates(ads, route, req, |ads|)
  {
    SkipClear(ws, |ads|, 64 * |ws|);
    MembersBelowExact(ws, |ads|);
    KeptAreCandidates(ws, ads, route, req, |ads|);
  }

  /** Three-way AND into the scratch intersection, word by word. */
  method Intersect(s: Scratch, pos: array<uint64>, country: array<uint64>, device: array<uint64>,
                   ghost snap: Snapshot, ghost route: Route)
    requires s.Valid() && s.intersectLen == Words(|snap.ads|)
    requires s.intersect !in {pos, country, device}
    requires Answers(pos, snap, route.pos) && Answers(country, snap, route.country)
    requires Answers(device, snap, route.device)
    modifies s.intersect
    ensures Intersects(s.intersect[..s.intersectLen], snap.ads, route)
  {
    for i := 0 to s.intersectLen
      invariant forall w | 0 <= w < i :: s.intersect[w] == And(And(pos[w], country[w]), device[w])
    {
      s.intersect[i] := And(And(pos[i], country[i]), device[i]);
    }
    ghost var ws := s.intersect[..s.intersectLen];
    forall i: nat | i < 64 * |ws|
      ensures IsSet(ws, i) <==> Indexed(snap.ads, route, i)
    {
      var w := i / 64;
      AndBits(And(pos[w], country[w]), device[w], i % 64);
      AndBits(pos[w], country[w], i % 64);
      assert IsSet(pos[..], i) && IsSet(country[..], i) && IsSet(device[..], i) <==> IsSet(ws, i);
    }
  }

  /** The callback of the walk, over all visited indices: filters, then appends within capacity. */
  method Filter(s: Scratch, ads: seq<Ad>, req: Request, visited: seq<nat>)
    requires s.Valid() && s.indicesLen == 0 && |visited| <= s.indices.Length && InRange(ads, visited)
    modifies s`indicesLen, s.indices
    ensures s.Valid() && s.indices[..s.indicesLen] == Kept(ads, req, visited)
  {
    for k := 0 to |visited|
      modifies s`indicesLen, s.indices
      invariant s.indicesLen <= k
      invariant s.indices[..s.indicesLen] == Kept(ads, req, visited[..k])
    {
      assert visited[..k + 1][..k] == visited[..k];
      var idx := visited[k];
      if idx in req.excluded {
        continue;
      }
      if req.pos == "mid" {
        var off := ads[idx].midRollOffset;
        if || off < Wrap32(req.offset - MID_ROLL_OFFSET_TOLERANCE)
           || off > Wrap32(req.offset + MID_ROLL_OFFSET_TOLERANCE) {
          continue;
        }
      }
      s.indices[s.indicesLen] := idx;
      s.indicesLen := s.indicesLen + 1;
    }
    assert visited[..|visited|] == visited;
  }

  /** The cumulative table over the top-priority bucket. */
  method Accumulate(s: Scratch, ads: seq<Ad>, ghost ws: seq<real>) returns (total: real)
    requires s.Valid() && s.indicesLen <= s.cumWeight.Length && InRange(ads, s.indices[..s.indicesLen])
    requires ws == AdWeights(ads)
    modifies s`cumLen, s.cumWeight
    ensures s.Valid() && s.cumLen == s.indicesLen
    ensures s.cumWeight[..s.cumLen] == Cumulative(Weights(ws, s.indices[..s.indicesLen]))
    ensures total == Total(s.cumWeight[..s.cumLen])
  {
    ghost var us := Weights(ws, s.indices[..s.indicesLen]);
    total := 0.0;
    s.cumLen := 0;
    for j := 0 to s.indicesLen
      modifies s`cumLen, s.cumWeight
      invariant s.cumLen == j && s.cumWeight[..j] == Cumulative(us[..j])
      invariant total == Total(Cumulative(us[..j]))
    {
      assert us[..j + 1][..j] == us[..j];
      var w := ads[s.indices[j]].pacingWeight;
      if w <= 0.0 {
        w := 1.0;
      }
      assert w == us[j] && total + w == Total(Cumulative(us[..j + 1]));
      total := total + w;
      ghost var cum := s.cumWeight[..j];
      s.cumWeight[s.cumLen] := total;
      s.cumLen := s.cumLen + 1;
      assert s.cumWeight[..j + 1] == cum + [total];
    }
    assert us[..|us|] == us;
  }

  /** The search over the table, with the source's clamp. */
  method Locate(s: Scratch, x: real) returns (k: nat)
    requires s.Valid() && 0 < s.cumLen && StrictlyIncreasing(s.cumWeight[..s.cumLen])
    ensures k == Located(s.cumWeight[..s.cumLen], x)
  {
    k := SearchFloats(s.cumWeight, s.cumLen, x);
    if k >= s.cumLen {
      k := s.cumLen - 1;
    }
  }

  /** The weighted draw: a position in the top-priority bucket. */
  method Draw(s: Scratch, ads: seq<Ad>, ghost ws: seq<real>, rand: Rand) returns (k: nat)
    requires s.Valid() && 1 < s.indicesLen <= s.cumWeight.Length && InRange(ads, s.indices[..s.indicesLen])
    requires ws == AdWeights(ads)
    modifies s`cumLen, s.cumWeight
    ensures s.Valid() && k < s.indicesLen
    ensures k == PickAt(Weights(ws, s.indices[..s.indicesLen]), rand)
  {
    ghost var us := Weights(ws, s.indices[..s.indicesLen]);
    var total := Accumulate(s, ads, ws);
    assert StrictlyIncreasing(s.cumWeight[..s.cumLen]) by { CumulativeIncreases(us); }
    k := Locate(s, rand(total));
  }

  /** Steps up to the candidate list: lookups, reset, AND, walk. False when a lookup is nil or nothing passes. */
  method Gather(snap: Snapshot, req: Request, s: Scratch) returns (any: bool)
    requires ValidSnapshot(snap) && snap.ads != [] && s.Valid() && s.Repr() !! snap.index.Repr
    modifies s.Repr()
    ensures s.Valid() && fresh(s.Repr() - old(s.Repr()))
    ensures any <==> AllCandidates(snap.ads, req) != []
    ensures any ==> s.indices[..s.indicesLen] == AllCandidates(snap.ads, req)
    ensures any ==> s.cumWeight.Length >= |snap.ads| >= s.indicesLen
  {
    var pos := MatchingPosition(snap, req.pos);
    var country := MatchingCountry(snap, req.country);
    var device := MatchingDevice(snap, req.device);
    ghost var route := RouteOf(snap.ads, req);
    LookupsAnswer(snap, req.pos, req.country, req.device);
    if pos == null || country == null || device == null {
      NoneIndexed(snap.ads, route, req);
      return false;
    }
    s.Reset(snap.bitsetSize, |snap.ads|);
    Intersect(s, pos, country, device, snap, route);
    WalkMeetsCandidates(s.intersect[..s.intersectLen], snap.ads, route, req);
    var visited := ForEach(s.intersect, s.intersectLen);
    Filter(s, snap.ads, req, visited);
    CandidatesExact(snap.ads, route, req, |snap.ads|);
    any := s.indicesLen != 0;
  }

  lemma {:induction false} NoneIndexed(ads: seq<Ad>, route: Route, req: Request)
    requires forall i: nat :: !Indexed(ads, route, i)
    ensures Candidates(ads, route, req, |ads|) == []
  {
    NoneIndexedBelow(ads, route, req, |ads|);
  }

  lemma {:induction false} NoneIndexedBelow(ads: seq<Ad>, route: Route, req: Request, n: nat)
    requires n <= |ads| && forall i: nat :: !Indexed(ads, route, i)
    ensures Candidates(ads, route, req, n) == []
  {
    if n > 0 {
      NoneIndexedBelow(ads, route, req, n - 1);
    }
  }

  /** The only member of the bucket, or the drawn one. */
  method TakeOne(s: Scratch, ads: seq<Ad>, ghost ws: seq<real>, rand: Rand) returns (k: nat)
    requires s.Valid() && 0 < s.indicesLen <= s.cumWeight.Length && InRange(ads, s.indices[..s.indicesLen])
    requires ws == AdWeights(ads)
    modifies s`cumLen, s.cumWeight
    ensures s.Valid() && k < s.indicesLen
    ensures k == PickAt(Weights(ws, s.indices[..s.indicesLen]), rand)
  {
    k := 0;
    if s.indicesLen > 1 {
      k := Draw(s, ads, ws, rand);
    }
  }

  /** Steps from the candidate list on: compact, then draw. */
  method Choose(s: Scratch, ads: seq<Ad>, ghost ws: seq<real>, rand: Rand) returns (i: nat)
    requires s.Valid() && 0 < s.indicesLen <= s.cumWeight.Length && InRange(ads, s.indices[..s.indicesLen])
    requires ws == AdWeights(ads)
    modifies s`indicesLen, s`cumLen, s.indices, s.cumWeight
    ensures s.Valid() && i < |ads|
    ensures i == Chosen(ads, ws, old(s.indices[..s.indicesLen]), rand)
  {
    ghost var c := s.indices[..s.indicesLen];
    TopExact(ads, c);
    ghost var t := Top(ads, c);
    s.indicesLen := TopPriority(ads, s.indices, s.indicesLen);
    assert s.indices[..s.indicesLen] == t;
    var k := TakeOne(s, ads, ws, rand);
    i := s.indices[k];
    assert i == t[k];
  }

  /** Select: the ad the definition picks, whatever the scratch held before; nil when none passes. */
  method Select(snap: Snapshot, req: Request, s: Scratch, rand: Rand) returns (ad: Ad?)
    requires ValidSnapshot(snap) && s.Valid() && s.Repr() !! snap.index.Repr
    modifies s.Repr()
    ensures s.Valid() && fresh(s.Repr() - old(s.Repr()))
    ensures var r := Selected(snap.ads, old(AdWeights(snap.ads)), req, rand);
            if r == None then ad == null else ad == snap.ads[r.value]
  {
    ghost var ws := AdWeights(snap.ads);
    if |snap.ads| == 0 {
      assert Candidates(snap.ads, RouteOf(snap.ads, req), req, 0) == [];
      return null;
    }
    var any := Gather(snap, req, s);
    if any {
      var i := Choose(s, snap.ads, ws, rand);
      ad := snap.ads[i];
    } else {
      ad := null;
    }
    s.Put();
  }
}
