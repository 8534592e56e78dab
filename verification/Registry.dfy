/** The in-memory snapshot of active ads and the bitset indexes the decision engine reads. */
module Registry {
  import opened Options
  import opened Bitset

  type int32 = x: int | -0x8000_0000 <= x < 0x8000_0000

  type Uuid = string

  const WILDCARD_KEY := "*"

  /** One creative. Only the pacing weight changes after loading. Title, landing page and media fields play no
      part in the decision and are left out. */
  class Ad {
    const id: Uuid
    const campaignId: Uuid
    const positionType: string
    const midRollOffset: int32
    const priority: int32
    const countries: seq<string>
    const devices: seq<string>
    const budgetTotal: int32
    const capMaxImpressions: int32
    const capTimeWindowSecs: int32
    var pacingWeight: real

    constructor (id: Uuid, campaignId: Uuid, positionType: string, midRollOffset: int32, priority: int32,
                 countries: seq<string>, devices: seq<string>, budgetTotal: int32,
                 capMaxImpressions: int32, capTimeWindowSecs: int32)
      ensures this.id == id && this.campaignId == campaignId && this.positionType == positionType
      ensures this.midRollOffset == midRollOffset && this.priority == priority
      ensures this.countries == countries && this.devices == devices && this.budgetTotal == budgetTotal
      ensures this.capMaxImpressions == capMaxImpressions && this.capTimeWindowSecs == capTimeWindowSecs
    {
      this.id, this.campaignId, this.positionType := id, campaignId, positionType;
      this.midRollOffset, this.priority := midRollOffset, priority;
      this.countries, this.devices, this.budgetTotal := countries, devices, budgetTotal;
      this.capMaxImpressions, this.capTimeWindowSecs := capMaxImpressions, capTimeWindowSecs;
      pacingWeight := 0.0;
    }
  }

  // --- What the index means -----------------------------------------------------------------------

  datatype Dimension = Position | Country | Device

  /** The name of a bucket: the source's maps ByPosition, ByCountry and ByDevice are one map here, keyed by
      dimension first. */
  datatype Key = Key(dim: Dimension, name: string)

  function EffectivePosition(ad: Ad): string {
    if ad.positionType == "" then "pre" else ad.positionType
  }

  /** The names an ad targets on a dimension; an empty list matches anything. */
  function Targets(ad: Ad, dim: Dimension): seq<string> {
    match dim
    case Position => [EffectivePosition(ad)]
    case Country => ad.countries
    case Device => ad.devices
  }

  predicate FiledUnder(targets: seq<string>, name: string) {
    if targets == [] then name == WILDCARD_KEY else name in targets
  }

  /** The buckets an ad is put into while the ads are scanned. */
  predicate Filed(ad: Ad, key: Key) {
    FiledUnder(Targets(ad, key.dim), key.name)
  }

  predicate HasKey(ads: seq<Ad>, key: Key) {
    exists i :: 0 <= i < |ads| && Filed(ads[i], key)
  }

  /** Bucket membership once the wildcard ads are folded in. */
  predicate InBucket(ads: seq<Ad>, key: Key, i: nat) {
    i < |ads| && (Targets(ads[i], key.dim) == [] || key.name in Targets(ads[i], key.dim))
  }

  /** The pairs (bucket, i) whose bit is on. */
  type Relation = set<(Key, nat)>

  /** What the index holds after the first pass over the first n ads. */
  ghost predicate Scanned(pairs: Relation, keys: set<Key>, ads: seq<Ad>, n: nat)
    requires n <= |ads|
  {
    && (forall k, i: nat {:trigger (k, i) in pairs} :: (k, i) in pairs <==> i < n && Filed(ads[i], k))
    && (forall k <- keys :: Used(pairs, k))
    && (forall p <- pairs :: p.0 in keys)
  }

  /** Some bit of the bucket is on. */
  ghost predicate Used(pairs: Relation, key: Key) {
    exists i: nat :: (key, i) in pairs
  }

  lemma ScannedKeys(pairs: Relation, keys: set<Key>, ads: seq<Ad>)
    requires Scanned(pairs, keys, ads, |ads|)
    ensures forall k :: k in keys <==> HasKey(ads, k)
  {
    forall k | HasKey(ads, k)
      ensures k in keys
    {
      var i :| 0 <= i < |ads| && Filed(ads[i], k);
      assert (k, i) in pairs;
    }
    forall k <- keys
      ensures HasKey(ads, k)
    {
      assert Used(pairs, k);
      var i: nat :| (k, i) in pairs;
      assert Filed(ads[i], k);
    }
  }

  lemma ScannedNext(pairs: Relation, keys: set<Key>, pairs': Relation, keys': set<Key>, ads: seq<Ad>, n: nat)
    requires n < |ads| && Scanned(pairs, keys, ads, n)
    requires forall k, j: nat {:trigger (k, j) in pairs'} ::
               (k, j) in pairs' <==> (k, j) in pairs || (j == n && Filed(ads[n], k))
    requires forall k <- keys' :: k in keys || (k, n) in pairs'
    requires forall p <- pairs' :: p.0 in keys'
    ensures Scanned(pairs', keys', ads, n + 1)
  {
  }

  /** The ads below n that target nothing on a dimension. */
  ghost predicate AreWildcards(wild: seq<nat>, ads: seq<Ad>, dim: Dimension, n: nat)
    requires n <= |ads|
  {
    forall i: nat {:trigger i in wild} :: i in wild <==> i < n && Targets(ads[i], dim) == []
  }

  /** The index lists exactly the ads of each bucket, over exactly the buckets some ad was filed under. */
  ghost predicate Exactly(pairs: Relation, keys: set<Key>, ads: seq<Ad>) {
    && (forall k :: k in keys <==> HasKey(ads, k))
    && (forall k, i: nat {:trigger (k, i) in pairs} :: (k, i) in pairs <==> k in keys && InBucket(ads, k, i))
  }

  // --- The index ----------------------------------------------------------------------------------

  /** A map from bucket name to bitset, all bitsets `words` words long and none of them shared. */
  class Index {
    var buckets: map<Key, array<uint64>>
    const words: nat
    var wild: map<Dimension, seq<nat>>  // per dimension, the ads that target nothing, noted in the first pass
    ghost var Repr: set<object>
    ghost var Pairs: Relation

    ghost predicate Valid()
      reads this, Repr
      ensures Valid() ==> this in Repr
    {
      && this in Repr
      && (forall k <- buckets :: buckets[k] in Repr && buckets[k].Length == words)
      && (forall k <- buckets, l <- buckets :: k != l ==> buckets[k] != buckets[l])
      && (forall p <- Pairs :: p.0 in buckets && p.1 < 64 * words)
      && (forall k <- buckets, i: nat {:trigger (k, i) in Pairs} | i < 64 * words ::
            (k, i) in Pairs <==> IsSet(buckets[k][..], i))
    }

    /** The first n ads have been through the first pass. */
    ghost predicate FirstPass(ads: seq<Ad>, n: nat)
      requires n <= |ads|
      reads this, Repr
    {
      && Valid() && words == Words(|ads|)
      && Scanned(Pairs, buckets.Keys, ads, n)
      && forall dim :: dim in wild && AreWildcards(wild[dim], ads, dim, n)
    }

    /** Both passes are done. */
    ghost predicate Built(ads: seq<Ad>)
      reads this, Repr
    {
      Valid() && words == Words(|ads|) && Exactly(Pairs, buckets.Keys, ads)
    }

    constructor (ghost ads: seq<Ad>, words: nat)
      requires words == Words(|ads|)
      ensures FirstPass(ads, 0) && fresh(Repr)
    {
      this.words := words;
      wild := map[Position := [], Country := [], Device := []];
      buckets := map[];
      Repr := {this};
      Pairs := {};
      new;
      forall dim: Dimension
        ensures dim in wild && wild[dim] == []
      {
        match dim case Position => case Country => case Device =>
      }
    }

    /** ensure: the bucket of a key, created with no member when the key is new. */
    method Ensure(key: Key) returns (b: array<uint64>)
      requires Valid()
      modifies this
      ensures Valid() && fresh(Repr - old(Repr)) && wild == old(wild) && Pairs == old(Pairs)
      ensures key in buckets && b == buckets[key]
      ensures buckets.Keys == old(buckets).Keys + {key}
      ensures key in old(buckets) ==> buckets == old(buckets) && Repr == old(Repr)
    {
      if key in buckets {
        return buckets[key];
      }
      var made := NewBitset(words * 64);
      if made == null {
        b := new uint64[words];
      } else {
        b := made;
      }
      buckets := buckets[key := b];
      Repr := Repr + {b};
      forall i: nat | i < 64 * words
        ensures !IsSet(b[..], i)
      {
        ZeroBits(i % 64);
      }
    }

    /** ensure(m, key, size).Set(i) */
    method Mark(key: Key, i: nat)
      requires Valid() && i < 64 * words
      modifies Repr
      ensures Valid() && fresh(Repr - old(Repr)) && wild == old(wild) && Pairs == old(Pairs) + {(key, i)}
      ensures buckets.Keys == old(buckets).Keys + {key}
      ensures key in old(buckets) ==> buckets == old(buckets) && Repr == old(Repr)
    {
      var b := Ensure(key);
      label ensured:
      Set(b, i);
      Pairs := Pairs + {(key, i)};
      forall k <- buckets, j: nat | j < 64 * words
        ensures (k, j) in Pairs <==> IsSet(buckets[k][..], j)
      {
        if k != key {
          assert buckets[k][..] == old@ensured(buckets[k][..]);
        }
      }
    }

    /** The first pass for one ad and dimension: no targeting goes to the wildcard bucket and is noted, anything
        else goes to its own buckets. */
    method File(dim: Dimension, targets: seq<string>, i: nat)
      requires Valid() && i < 64 * words && dim in wild
      modifies Repr
      ensures Valid() && fresh(Repr - old(Repr))
      ensures wild == if targets == [] then old(wild)[dim := old(wild)[dim] + [i]] else old(wild)
      ensures forall k, j: nat {:trigger (k, j) in Pairs} ::
                (k, j) in Pairs <==> (k, j) in old(Pairs) || (j == i && k.dim == dim && FiledUnder(targets, k.name))
      ensures forall k <- buckets :: k in old(buckets) || (k, i) in Pairs
    {
      if |targets| == 0 {
        Mark(Key(dim, WILDCARD_KEY), i);
        wild := wild[dim := wild[dim] + [i]];
        return;
      }
      for n := 0 to |targets|
        invariant Valid() && fresh(Repr - old(Repr)) && wild == old(wild)
        invariant forall k, j: nat {:trigger (k, j) in Pairs} ::
                    (k, j) in Pairs <==> (k, j) in old(Pairs) || (j == i && k.dim == dim && k.name in targets[..n])
        invariant forall k <- buckets :: k in old(buckets) || (k, i) in Pairs
      {
        assert targets[..n + 1] == targets[..n] + [targets[n]];
        Mark(Key(dim, targets[n]), i);
      }
      assert targets[..|targets|] == targets;
    }

    /** The body of the first pass: ad i is filed on every dimension. */
    method FileAd(ads: seq<Ad>, i: nat)
      requires i < |ads| && FirstPass(ads, i)
      modifies Repr
      ensures FirstPass(ads, i + 1) && fresh(Repr - old(Repr))
    {
      ghost var pairs, keys := Pairs, buckets.Keys;
      FileEverywhere(ads[i], i);
      ScannedNext(pairs, keys, Pairs, buckets.Keys, ads, i);
    }

    method FileEverywhere(ad: Ad, i: nat)
      requires Valid() && i < 64 * words && (forall dim: Dimension :: dim in wild)
      modifies Repr
      ensures Valid() && fresh(Repr - old(Repr)) && (forall dim: Dimension :: dim in wild)
      ensures forall dim: Dimension ::
                wild[dim] == if Targets(ad, dim) == [] then old(wild)[dim] + [i] else old(wild)[dim]
      ensures forall k, j: nat {:trigger (k, j) in Pairs} ::
                (k, j) in Pairs <==> (k, j) in old(Pairs) || (j == i && Filed(ad, k))
      ensures forall k <- buckets :: k in old(buckets) || (k, i) in Pairs
    {
      File(Position, [if ad.positionType == "" then "pre" else ad.positionType], i);
      File(Country, ad.countries, i);
      File(Device, ad.devices, i);
    }

    /** The second pass for one dimension: every wildcard ad joins every concrete bucket, in whatever order the
        map is ranged. */
    method Fold(dim: Dimension, those: seq<nat>)
      requires Valid() && forall i <- those :: i < 64 * words
      modifies Repr
      ensures Valid() && Repr == old(Repr) && unchanged(`buckets, `wild)
      ensures forall k, i: nat {:trigger (k, i) in Pairs} ::
                (k, i) in Pairs <==>
                (k, i) in old(Pairs) || (k in buckets && k.dim == dim && k.name != WILDCARD_KEY && i in those)
    {
      var todo := set k | k in buckets && k.dim == dim;
      while todo != {}
        invariant Valid() && Repr == old(Repr) && unchanged(`buckets, `wild)
        invariant forall k <- todo :: k in buckets && k.dim == dim
        invariant forall k, i: nat {:trigger (k, i) in Pairs} ::
                    (k, i) in Pairs <==>
                    (k, i) in old(Pairs)
                    || (k in buckets && k.dim == dim && k !in todo && k.name != WILDCARD_KEY && i in those)
        decreases todo
      {
        var key :| key in todo;
        if key.name != WILDCARD_KEY {
          SetAll(key, those);
        }
        todo := todo - {key};
      }
    }

    /** The second pass. */
    method FoldAll(ghost ads: seq<Ad>)
      requires FirstPass(ads, |ads|)
      modifies Repr
      ensures Built(ads) && Repr == old(Repr)
    {
      ScannedKeys(Pairs, buckets.Keys, ads);
      Fold(Country, wild[Country]);
      Fold(Device, wild[Device]);
    }

    method SetAll(key: Key, those: seq<nat>)
      requires Valid() && key in buckets && forall i <- those :: i < 64 * words
      modifies Repr
      ensures Valid() && Repr == old(Repr) && unchanged(`buckets, `wild)
      ensures forall k, i: nat {:trigger (k, i) in Pairs} ::
                (k, i) in Pairs <==> (k, i) in old(Pairs) || (k == key && i in those)
    {
      for n := 0 to |those|
        invariant Valid() && Repr == old(Repr) && unchanged(`buckets, `wild)
        invariant forall k, i: nat {:trigger (k, i) in Pairs} ::
                    (k, i) in Pairs <==> (k, i) in old(Pairs) || (k == key && i in those[..n])
      {
        assert those[..n + 1] == those[..n] + [those[n]];
        assert those[n] in those;
        Mark(key, those[n]);
      }
      assert those[..|those|] == those;
    }
  }

  // --- Building the snapshot ----------------------------------------------------------------------

  /** The immutable read view: the index is built once and never written again. */
  datatype Snapshot = Snapshot(ads: seq<Ad>, bitsetSize: nat, index: Index, byId: map<Uuid, Ad>)

  function Words(n: nat): nat {
    (n + 63) / 64
  }

  ghost predicate ValidSnapshot(snap: Snapshot)
    reads snap.index, snap.index.Repr
  {
    snap.index.Built(snap.ads) && snap.bitsetSize == snap.index.words
  }

  // --- Lookups ------------------------------------------------------------------------------------

  function Bucket(snap: Snapshot, key: Key): (b: array?<uint64>)
    reads snap.index
  {
    if key in snap.index.buckets then snap.index.buckets[key] else null
  }

  function MatchingPosition(snap: Snapshot, pos: string): (b: array?<uint64>)
    reads snap.index
  {
    Bucket(snap, Key(Position, pos))
  }

  function MatchingCountry(snap: Snapshot, iso: string): (b: array?<uint64>)
    reads snap.index
  {
    if iso == "" then Bucket(snap, Key(Country, WILDCARD_KEY))
    else if Key(Country, iso) in snap.index.buckets then snap.index.buckets[Key(Country, iso)]
    else Bucket(snap, Key(Country, WILDCARD_KEY))
  }

  function MatchingDevice(snap: Snapshot, device: string): (b: array?<uint64>)
    reads snap.index
  {
    if device == "" then Bucket(snap, Key(Device, WILDCARD_KEY))
    else if Key(Device, device) in snap.index.buckets then snap.index.buckets[Key(Device, device)]
    else Bucket(snap, Key(Device, WILDCARD_KEY))
  }

  /** A bitset that answers a bucket: nil when no ad was ever filed there, else its members are the bucket's. */
  ghost predicate Answers(b: array?<uint64>, snap: Snapshot, key: Key)
    reads b
  {
    if b == null then forall i: nat :: !InBucket(snap.ads, key, i)
    else
      && b.Length == Words(|snap.ads|)
      && forall i: nat {:trigger IsSet(b[..], i)} | i < 64 * b.Length :: IsSet(b[..], i) <==> InBucket(snap.ads, key, i)
  }

  /** The bucket MatchingCountry and MatchingDevice consult: the name's own, else the wildcard bucket. */
  function Consulted(ads: seq<Ad>, dim: Dimension, name: string): (k: Key) {
    if name != "" && HasKey(ads, Key(dim, name)) then Key(dim, name) else Key(dim, WILDCARD_KEY)
  }

  lemma OccupiedHasKey(ads: seq<Ad>, key: Key, i: nat)
    requires key.dim == Position || key.name == WILDCARD_KEY || HasKey(ads, key)
    requires InBucket(ads, key, i)
    ensures HasKey(ads, key)
  {
  }

  lemma BucketAnswers(snap: Snapshot, key: Key)
    requires ValidSnapshot(snap)
    requires key.dim == Position || key.name == WILDCARD_KEY || HasKey(snap.ads, key)
    ensures Answers(Bucket(snap, key), snap, key)
    ensures Bucket(snap, key) != null ==> Bucket(snap, key) in snap.index.Repr
  {
    var b := Bucket(snap, key);
    if b == null {
      forall i: nat
        ensures !InBucket(snap.ads, key, i)
      {
        if InBucket(snap.ads, key, i) {
          OccupiedHasKey(snap.ads, key, i);
        }
      }
    } else {
      forall i: nat | i < 64 * b.Length
        ensures IsSet(b[..], i) <==> InBucket(snap.ads, key, i)
      {
        assert (key, i) in snap.index.Pairs <==> InBucket(snap.ads, key, i);
      }
    }
  }

  /** The buckets there are, on the fields of the ads: an ad names its position, its countries and its devices, and
      "*" where it lists none. */
  predicate Names(ad: Ad, key: Key) {
    match key.dim
    case Position => if ad.positionType == "" then key.name == "pre" else key.name == ad.positionType
    case Country => key.name in ad.countries || (ad.countries == [] && key.name == "*")
    case Device => key.name in ad.devices || (ad.devices == [] && key.name == "*")
  }

  /** The members of a bucket, on the fields of the ads: one that lists no country belongs to every country. */
  predicate Belongs(ad: Ad, key: Key) {
    match key.dim
    case Position => if ad.positionType == "" then key.name == "pre" else key.name == ad.positionType
    case Country => key.name in ad.countries || ad.countries == []
    case Device => key.name in ad.devices || ad.devices == []
  }

  /** Every bucket of the built index, bit by bit: a bit is on exactly for an ad that targets nothing or lists the
      name, and never beyond the last ad; the wildcard bucket so holds exactly the ads that target nothing, unless
      an ad lists "*". There is a bucket for every name some ad lists, and no two buckets share storage. */
  lemma BucketsExact(snap: Snapshot, key: Key, i: nat)
    requires ValidSnapshot(snap)
    ensures key in snap.index.buckets <==> exists j :: 0 <= j < |snap.ads| && Names(snap.ads[j], key)
    ensures key in snap.index.buckets && i < 64 * snap.bitsetSize ==>
              (IsSet(snap.index.buckets[key][..], i) <==> i < |snap.ads| && Belongs(snap.ads[i], key))
    ensures forall l <- snap.index.buckets :: key in snap.index.buckets && l != key ==>
              snap.index.buckets[l] != snap.index.buckets[key]
  {
    assert forall j | 0 <= j < |snap.ads| :: Filed(snap.ads[j], key) <==> Names(snap.ads[j], key);
    assert key in snap.index.buckets <==> HasKey(snap.ads, key);
    if key in snap.index.buckets && i < 64 * snap.bitsetSize {
      assert (key, i) in snap.index.Pairs <==> InBucket(snap.ads, key, i);
    }
  }

  /** The three lookups answer the bucket of the position and the consulted buckets of country and device. */
  lemma LookupsAnswer(snap: Snapshot, pos: string, iso: string, device: string)
    requires ValidSnapshot(snap)
    ensures Answers(MatchingPosition(snap, pos), snap, Key(Position, pos))
    ensures Answers(MatchingCountry(snap, iso), snap, Consulted(snap.ads, Country, iso))
    ensures Answers(MatchingDevice(snap, device), snap, Consulted(snap.ads, Device, device))
  {
    BucketAnswers(snap, Key(Position, pos));
    BucketAnswers(snap, Consulted(snap.ads, Country, iso));
    BucketAnswers(snap, Consulted(snap.ads, Device, device));
    assert MatchingCountry(snap, iso) == Bucket(snap, Consulted(snap.ads, Country, iso));
    assert MatchingDevice(snap, device) == Bucket(snap, Consulted(snap.ads, Device, device));
  }

  /** The snapshot weight: budget (1 when unset) spread over the hours left, at least one hour. Times are in
      seconds. */
  function PacingWeight(budgetTotal: int32, endDate: Option<real>, now: real): (w: real)
    ensures w > 0.0
  {
    var budget := if budgetTotal <= 0 then 1.0 else budgetTotal as real;
    match endDate
    case None => budget
    case Some(end) =>
      var hours := (end - now) / 3600.0;
      PerHour(budget, if hours < 1.0 then 1.0 else hours)
  }

  function PerHour(budget: real, hours: real): (w: real)
    requires budget > 0.0 && hours > 0.0
    ensures w > 0.0
  {
    budget / hours
  }

  /** The budget is spread over the time left, which counts as an hour at least; without an end it is the weight. */
  lemma PacingExact(budgetTotal: int32, endDate: Option<real>, now: real)
    ensures var w := PacingWeight(budgetTotal, endDate, now);
            var budget := if budgetTotal > 0 then budgetTotal as real else 1.0;
            && (endDate == None ==> w == budget)
            && (endDate.Some? && endDate.value - now <= 3600.0 ==> w == budget)
            && (endDate.Some? && endDate.value - now >= 3600.0 ==> w * (endDate.value - now) == budget * 3600.0)
  {
    var budget := if budgetTotal > 0 then budgetTotal as real else 1.0;
    if endDate.Some? && endDate.value - now >= 3600.0 {
      var hours := (endDate.value - now) / 3600.0;
      assert PerHour(budget, hours) * hours == budget;
      assert PerHour(budget, hours) * (hours * 3600.0) == PerHour(budget, hours) * hours * 3600.0;
    }
  }

  ghost predicate Paced(ads: seq<Ad>, endDates: seq<Option<real>>, now: real, n: nat)
    requires n <= |ads| == |endDates|
    reads ads
  {
    forall i | 0 <= i < n :: ads[i].pacingWeight == PacingWeight(ads[i].budgetTotal, endDates[i], now)
  }

  predicate Distinct(ads: seq<Ad>) {
    forall i, j | 0 <= i < j < |ads| :: ads[i] != ads[j]
  }

  method SetPace(ads: seq<Ad>, endDates: seq<Option<real>>, now: real, i: nat)
    requires i < |ads| == |endDates| && Distinct(ads) && Paced(ads, endDates, now, i)
    modifies {ads[i]}`pacingWeight
    ensures Paced(ads, endDates, now, i + 1)
  {
    ads[i].pacingWeight := PacingWeight(ads[i].budgetTotal, endDates[i], now);
  }

  /** The lookup by id; a later ad with the same id wins. */
  function LastById(ads: seq<Ad>, n: nat): (m: map<Uuid, Ad>)
    requires n <= |ads|
  {
    if n == 0 then map[] else LastById(ads, n - 1)[ads[n - 1].id := ads[n - 1]]
  }

  lemma {:induction false} LastByIdExact(ads: seq<Ad>, n: nat, id: Uuid)
    requires n <= |ads|
    ensures id in LastById(ads, n) <==> exists i :: 0 <= i < n && ads[i].id == id
    ensures id in LastById(ads, n) ==>
              exists i :: 0 <= i < n && LastById(ads, n)[id] == ads[i] && ads[i].id == id
                          && forall j | i < j < n :: ads[j].id != id
  {
    if n > 0 {
      LastByIdExact(ads, n - 1, id);
      if ads[n - 1].id != id && id in LastById(ads, n - 1) {
        var i :| 0 <= i < n - 1 && LastById(ads, n - 1)[id] == ads[i] && ads[i].id == id
                 && forall j | i < j < n - 1 :: ads[j].id != id;
        assert LastById(ads, n)[id] == ads[i];
      }
    }
  }

  method BuildSnapshot(ads: seq<Ad>, endDates: seq<Option<real>>, now: real) returns (snap: Snapshot)
    requires |endDates| == |ads| && Distinct(ads)
    modifies (set ad | ad in ads)`pacingWeight
    ensures snap.ads == ads && ValidSnapshot(snap) && fresh(snap.index.Repr)
    ensures snap.byId == LastById(ads, |ads|)
    ensures Paced(ads, endDates, now, |ads|)
  {
    var index := new Index(ads, (|ads| + 63) / 64);
    var byId: map<Uuid, Ad> := map[];
    for i := 0 to |ads|
      invariant index.FirstPass(ads, i) && fresh(index.Repr)
      invariant byId == LastById(ads, i)
      invariant Paced(ads, endDates, now, i)
    {
      byId := byId[ads[i].id := ads[i]];
      index.FileAd(ads, i);
      SetPace(ads, endDates, now, i);
    }
    index.FoldAll(ads);
    snap := Snapshot(ads, index.words, index, byId);
  }
}
