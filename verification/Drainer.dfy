/** One error-free tick of the worker: drain the counters of the active ads into daily_stats, then complete the
    campaigns that are spent. */
module Drainer {
  import opened Events
  import opened Redis

  /** What a tick reads of an active ad. */
  datatype ActiveAd = ActiveAd(id: Id, campaign: Id, budgetTotal: int)

  /** The count columns of a daily_stats row. */
  datatype Columns = Columns(impressions: int, clicks: int, startCount: int, q25: int, q50: int, q75: int,
                             complete: int)
  {
    function At(ev: Event): int {
      match ev
      case Impression => impressions
      case Click => clicks
      case Start => startCount
      case FirstQuartile => q25
      case Midpoint => q50
      case ThirdQuartile => q75
      case Complete => complete
    }

    function Sum(): int {
      impressions + clicks + startCount + q25 + q50 + q75 + complete
    }

    function Plus(c: Columns): Columns {
      Columns(impressions + c.impressions, clicks + c.clicks, startCount + c.startCount, q25 + c.q25, q50 + c.q50,
              q75 + c.q75, complete + c.complete)
    }
  }

  const ZERO := Columns(0, 0, 0, 0, 0, 0, 0)

  type Stats = map<Row, Columns>

  function ColumnsAt(stats: Stats, r: Row): Columns {
    if r in stats then stats[r] else ZERO
  }

  // --- Specification ------------------------------------------------------------------------------

  /** The rows a tick visits: today's and yesterday's of every active ad. */
  function Rows(ads: seq<ActiveAd>, today: int): (rows: set<Row>)
    ensures forall r :: r in rows <==> (exists ad <- ads :: ad.id == r.ad) && today - 1 <= r.day <= today
  {
    (set ad <- ads :: Row(ad.id, today)) + (set ad <- ads :: Row(ad.id, today - 1))
  }

  /** d is the store without the counters of these rows, and otherwise the same. */
  ghost predicate Without(db: Db, d: Db, rows: set<Row>) {
    && (forall k :: k in d <==> k in db && !(k.Counter? && Row(k.ad, k.day) in rows))
    && (forall k <- d :: d[k] == db[k])
  }

  /** These columns are the row's counters. */
  ghost predicate Taken(db: Db, r: Row, c: Columns) {
    forall ev: Event :: c.At(ev) == NumAt(db, Counter(r.ad, ev, r.day))
  }

  /** Row r is as before. */
  ghost predicate SameRow(stats: Stats, s: Stats, r: Row) {
    (r in s <==> r in stats) && (r in s ==> s[r] == stats[r])
  }

  /** Row r gained these columns; an all-zero delta writes nothing. */
  ghost predicate RowAdded(stats: Stats, s: Stats, r: Row, c: Columns) {
    if c.Sum() > 0 then r in s && s[r] == ColumnsAt(stats, r).Plus(c) else SameRow(stats, s, r)
  }

  /** The rows gained what db's counters held. */
  ghost predicate Added(stats: Stats, s: Stats, db: Db, rows: set<Row>) {
    && (forall r <- rows :: exists c :: Taken(db, r, c) && RowAdded(stats, s, r, c))
    && (forall r | r !in rows :: SameRow(stats, s, r))
  }

  /** No counter is negative, as module Conservation shows of every reachable store. */
  ghost predicate CountersPositive(db: Db) {
    forall k <- db :: k.Counter? ==> NumAt(db, k) >= 0
  }

  /** A tick moves a visited row's counters, each event's into its own column. */
  lemma TickMovesCounts(stats: Stats, s: Stats, db: Db, rows: set<Row>, r: Row)
    requires CountersPositive(db) && Added(stats, s, db, rows) && r in rows
    ensures ColumnsAt(s, r).impressions == ColumnsAt(stats, r).impressions + NumAt(db, Counter(r.ad, Impression, r.day))
    ensures ColumnsAt(s, r).clicks == ColumnsAt(stats, r).clicks + NumAt(db, Counter(r.ad, Click, r.day))
    ensures ColumnsAt(s, r).startCount == ColumnsAt(stats, r).startCount + NumAt(db, Counter(r.ad, Start, r.day))
    ensures ColumnsAt(s, r).q25 == ColumnsAt(stats, r).q25 + NumAt(db, Counter(r.ad, FirstQuartile, r.day))
    ensures ColumnsAt(s, r).q50 == ColumnsAt(stats, r).q50 + NumAt(db, Counter(r.ad, Midpoint, r.day))
    ensures ColumnsAt(s, r).q75 == ColumnsAt(stats, r).q75 + NumAt(db, Counter(r.ad, ThirdQuartile, r.day))
    ensures ColumnsAt(s, r).complete == ColumnsAt(stats, r).complete + NumAt(db, Counter(r.ad, Complete, r.day))
  {
    RowGainsCounters(stats, s, db, rows, r);
  }

  function CountersOf(db: Db, r: Row): (c: Columns) {
    Columns(NumAt(db, Counter(r.ad, Impression, r.day)),
            NumAt(db, Counter(r.ad, Click, r.day)),
            NumAt(db, Counter(r.ad, Start, r.day)),
            NumAt(db, Counter(r.ad, FirstQuartile, r.day)),
            NumAt(db, Counter(r.ad, Midpoint, r.day)),
            NumAt(db, Counter(r.ad, ThirdQuartile, r.day)),
            NumAt(db, Counter(r.ad, Complete, r.day)))
  }

  lemma RowGainsCounters(stats: Stats, s: Stats, db: Db, rows: set<Row>, r: Row)
    requires CountersPositive(db) && Added(stats, s, db, rows) && r in rows
    ensures ColumnsAt(s, r) == ColumnsAt(stats, r).Plus(CountersOf(db, r))
  {
    var c :| Taken(db, r, c) && RowAdded(stats, s, r, c);
    TakenColumns(db, r, c);
    FieldsNonnegative(db, r, c);
    RowGains(stats, s, r, c);
  }

  lemma RowGains(stats: Stats, s: Stats, r: Row, c: Columns)
    requires RowAdded(stats, s, r, c) && (c.Sum() <= 0 ==> c == ZERO)
    ensures ColumnsAt(s, r) == ColumnsAt(stats, r).Plus(c)
  {
    if c.Sum() <= 0 {
      PlusZero(ColumnsAt(stats, r));
    }
  }

  lemma PlusZero(c: Columns)
    ensures c.Plus(ZERO) == c
  {
  }

  /** A visited row is there afterwards if it was before or has something to hold. */
  lemma RowAppears(stats: Stats, s: Stats, db: Db, rows: set<Row>, r: Row)
    requires CountersPositive(db) && Added(stats, s, db, rows) && r in rows
    ensures r in s <==> r in stats || exists ev :: NumAt(db, Counter(r.ad, ev, r.day)) > 0
  {
    var c :| Taken(db, r, c) && RowAdded(stats, s, r, c);
    FieldsNonnegative(db, r, c);
    if c.Sum() > 0 {
      var ev := SomePositive(c);
      assert NumAt(db, Counter(r.ad, ev, r.day)) > 0;
    } else {
      assert SameRow(stats, s, r);
      forall ev ensures NumAt(db, Counter(r.ad, ev, r.day)) == 0 {
        assert c.At(ev) == 0;
      }
    }
  }

  lemma FieldsNonnegative(db: Db, r: Row, c: Columns)
    requires CountersPositive(db) && Taken(db, r, c)
    ensures c.impressions >= 0 && c.clicks >= 0 && c.startCount >= 0 && c.q25 >= 0 && c.q50 >= 0 && c.q75 >= 0
    ensures c.complete >= 0
    ensures c.Sum() <= 0 ==> c == ZERO
  {
    TakenColumns(db, r, c);
    forall ev ensures NumAt(db, Counter(r.ad, ev, r.day)) >= 0 {
    }
  }

  /** It takes those counters out of Redis, and leaves every other row and key. */
  lemma TickLeavesTheRest(stats: Stats, s: Stats, db: Db, d: Db, rows: set<Row>)
    requires Without(db, d, rows) && Added(stats, s, db, rows)
    ensures forall r | r !in rows :: (r in s <==> r in stats) && (r in s ==> s[r] == stats[r])
    ensures forall k :: k in d <==> k in db && !(k.Counter? && Row(k.ad, k.day) in rows)
    ensures forall k <- d :: d[k] == db[k]
  {
    forall r | r !in rows ensures (r in s <==> r in stats) && (r in s ==> s[r] == stats[r]) {
      assert SameRow(stats, s, r);
    }
  }

  lemma TakenColumns(db: Db, r: Row, c: Columns)
    requires Taken(db, r, c)
    ensures c == CountersOf(db, r)
  {
    forall e: Event ensures c.At(e) == CountersOf(db, r).At(e) {
    }
    SameColumns(c, CountersOf(db, r));
  }

  lemma SomePositive(c: Columns) returns (ev: Event)
    requires c.Sum() > 0
    ensures c.At(ev) > 0
  {
    ev := if c.impressions > 0 then Impression else if c.clicks > 0 then Click else if c.startCount > 0 then Start
          else if c.q25 > 0 then FirstQuartile else if c.q50 > 0 then Midpoint else if c.q75 > 0 then ThirdQuartile
          else Complete;
  }

  /** Two ticks with no fetch in between, over whatever rows, have the effect of one tick over both. */
  lemma TicksCompose(stats: Stats, s: Stats, s': Stats, db: Db, d: Db, d': Db, rows: set<Row>, rows': set<Row>)
    requires Without(db, d, rows) && Added(stats, s, db, rows)
    requires Without(d, d', rows') && Added(s, s', d, rows')
    ensures Without(db, d', rows + rows') && Added(stats, s', db, rows + rows')
  {
    forall r | r in rows + rows' ensures exists c :: Taken(db, r, c) && RowAdded(stats, s', r, c) {
      if r in rows {
        var c :| Taken(db, r, c) && RowAdded(stats, s, r, c);
        EmptyRowStays(s, s', d, rows, rows', db, r);
        assert RowAdded(stats, s', r, c);
      } else {
        assert SameRow(stats, s, r);
        var c :| Taken(d, r, c) && RowAdded(s, s', r, c);
        assert forall e: Event :: NumAt(d, Counter(r.ad, e, r.day)) == NumAt(db, Counter(r.ad, e, r.day));
        assert Taken(db, r, c) && RowAdded(stats, s', r, c);
      }
    }
  }

  /** A row already drained gains nothing. */
  lemma EmptyRowStays(s: Stats, s': Stats, d: Db, rows: set<Row>, rows': set<Row>, db: Db, r: Row)
    requires Without(db, d, rows) && Added(s, s', d, rows') && r in rows
    ensures SameRow(s, s', r)
  {
    if r in rows' {
      var c :| Taken(d, r, c) && RowAdded(s, s', r, c);
      assert forall e: Event :: c.At(e) == 0;
      SameColumns(c, ZERO);
    }
  }

  /** A second tick over the same rows, or fewer after the first has completed campaigns, with no fetch in between,
      changes nothing. */
  lemma SecondTickAddsNothing(stats: Stats, s: Stats, s': Stats, db: Db, d: Db, d': Db, rows: set<Row>,
                              rows': set<Row>)
    requires Without(db, d, rows) && Added(stats, s, db, rows)
    requires Without(d, d', rows') && Added(s, s', d, rows') && rows' <= rows
    ensures d' == d && s' == s
  {
    forall r ensures SameRow(s, s', r) {
      if r in rows {
        EmptyRowStays(s, s', d, rows, rows', db, r);
      }
    }
    forall r ensures r in s' <==> r in s {
      assert SameRow(s, s', r);
    }
    forall r | r in s ensures s'[r] == s[r] {
      assert SameRow(s, s', r);
    }
  }

  // --- Draining -----------------------------------------------------------------------------------

  /** The counts gathered for one row. */
  class StatsDelta {
    const row: Row
    const campaign: Id
    var imps: int
    var clk: int
    var start: int
    var q25: int
    var q50: int
    var q75: int
    var complete: int

    constructor (row: Row, campaign: Id)
      ensures this.row == row && this.campaign == campaign && Cols() == ZERO
    {
      this.row, this.campaign := row, campaign;
      imps, clk, start, q25, q50, q75, complete := 0, 0, 0, 0, 0, 0, 0;
    }

    function Cols(): Columns
      reads this
    {
      Columns(imps, clk, start, q25, q50, q75, complete)
    }

    method AnyNonZero() returns (some: bool)
      ensures some <==> Cols().Sum() > 0
    {
      some := imps + clk + start + q25 + q50 + q75 + complete > 0;
    }

    method Add(ev: Event, n: int)
      modifies this
      ensures Cols().At(ev) == old(Cols()).At(ev) + n
      ensures forall e: Event | e != ev :: Cols().At(e) == old(Cols()).At(e)
    {
      match ev {
        case Impression => imps := imps + n;
        case Click => clk := clk + n;
        case Start => start := start + n;
        case FirstQuartile => q25 := q25 + n;
        case Midpoint => q50 := q50 + n;
        case ThirdQuartile => q75 := q75 + n;
        case Complete => complete := complete + n;
      }
    }
  }

  lemma SameColumns(c: Columns, d: Columns)
    requires forall e: Event :: c.At(e) == d.At(e)
    ensures c == d
  {
    assert c.At(Impression) == d.At(Impression) && c.At(Click) == d.At(Click) && c.At(Start) == d.At(Start);
    assert c.At(FirstQuartile) == d.At(FirstQuartile) && c.At(Midpoint) == d.At(Midpoint);
    assert c.At(ThirdQuartile) == d.At(ThirdQuartile) && c.At(Complete) == d.At(Complete);
  }

  /** The position of an event in the drained list. */
  function Index(ev: Event): (i: nat)
    ensures i < |TRACKED_EVENTS| && TRACKED_EVENTS[i] == ev
  {
    match ev
    case Impression => 0
    case Click => 1
    case Start => 2
    case FirstQuartile => 3
    case Midpoint => 4
    case ThirdQuartile => 5
    case Complete => 6
  }

  lemma IndexOf(i: nat)
    requires i < |TRACKED_EVENTS|
    ensures Index(TRACKED_EVENTS[i]) == i
  {
  }

  /** d is the store without the first j counters of a row. */
  ghost predicate WithoutFirst(db: Db, d: Db, r: Row, j: nat) {
    && (forall k :: k in d <==> k in db && !(k.Counter? && Row(k.ad, k.day) == r && Index(k.ev) < j))
    && (forall k <- d :: d[k] == db[k])
  }

  lemma WithoutNext(db: Db, d: Db, r: Row, ev: Event)
    requires WithoutFirst(db, d, r, Index(ev))
    ensures WithoutFirst(db, Del(d, Counter(r.ad, ev, r.day)), r, Index(ev) + 1)
    ensures NumAt(d, Counter(r.ad, ev, r.day)) == NumAt(db, Counter(r.ad, ev, r.day))
  {
  }

  /** GETDEL of one counter. */
  method DrainOne(server: Server, delta: StatsDelta, ev: Event)
    modifies server`db, delta
    ensures server.db == Del(old(server.db), Counter(delta.row.ad, ev, delta.row.day))
    ensures delta.Cols().At(ev) ==
            old(delta.Cols()).At(ev) + NumAt(old(server.db), Counter(delta.row.ad, ev, delta.row.day))
    ensures forall e: Event | e != ev :: delta.Cols().At(e) == old(delta.Cols()).At(e)
  {
    var val := server.GETDEL(Counter(delta.row.ad, ev, delta.row.day));
    if val.Some? && val.value.Num? {
      delta.Add(ev, val.value.n);
    }
  }

  /** What a row has gained after its first j counters were drained. */
  ghost predicate Gained(was: Columns, now: Columns, db: Db, r: Row, j: nat) {
    forall e: Event :: now.At(e) == was.At(e) + (if Index(e) < j then NumAt(db, Counter(r.ad, e, r.day)) else 0)
  }

  lemma GainedNext(was: Columns, mid: Columns, now: Columns, db: Db, r: Row, ev: Event)
    requires Gained(was, mid, db, r, Index(ev)) && now.At(ev) == mid.At(ev) + NumAt(db, Counter(r.ad, ev, r.day))
    requires forall e: Event | e != ev :: now.At(e) == mid.At(e)
    ensures Gained(was, now, db, r, Index(ev) + 1)
  {
  }

  /** The innermost loop: each event's counter of one row. */
  method DrainRow(server: Server, delta: StatsDelta)
    modifies server`db, delta
    ensures Without(old(server.db), server.db, {delta.row})
    ensures Gained(old(delta.Cols()), delta.Cols(), old(server.db), delta.row, |TRACKED_EVENTS|)
    ensures delta.imps == old(delta.imps) + NumAt(old(server.db), Counter(delta.row.ad, Impression, delta.row.day))
    ensures delta.clk == old(delta.clk) + NumAt(old(server.db), Counter(delta.row.ad, Click, delta.row.day))
    ensures delta.start == old(delta.start) + NumAt(old(server.db), Counter(delta.row.ad, Start, delta.row.day))
    ensures delta.q25 == old(delta.q25) + NumAt(old(server.db), Counter(delta.row.ad, FirstQuartile, delta.row.day))
    ensures delta.q50 == old(delta.q50) + NumAt(old(server.db), Counter(delta.row.ad, Midpoint, delta.row.day))
    ensures delta.q75 == old(delta.q75) + NumAt(old(server.db), Counter(delta.row.ad, ThirdQuartile, delta.row.day))
    ensures delta.complete ==
            old(delta.complete) + NumAt(old(server.db), Counter(delta.row.ad, Complete, delta.row.day))
  {
    var r := delta.row;
    ghost var was, db := delta.Cols(), server.db;
    for j := 0 to |TRACKED_EVENTS|
      invariant WithoutFirst(db, server.db, r, j)
      invariant Gained(was, delta.Cols(), db, r, j)
    {
      var ev := TRACKED_EVENTS[j];
      ghost var mid := delta.Cols();
      IndexOf(j);
      WithoutNext(db, server.db, r, ev);
      DrainOne(server, delta, ev);
      GainedNext(was, mid, delta.Cols(), db, r, ev);
    }
    GainedColumns(was, delta.Cols(), db, r);
  }

  lemma GainedColumns(was: Columns, now: Columns, db: Db, r: Row)
    requires Gained(was, now, db, r, |TRACKED_EVENTS|)
    ensures now.impressions == was.impressions + NumAt(db, Counter(r.ad, Impression, r.day))
    ensures now.clicks == was.clicks + NumAt(db, Counter(r.ad, Click, r.day))
    ensures now.startCount == was.startCount + NumAt(db, Counter(r.ad, Start, r.day))
    ensures now.q25 == was.q25 + NumAt(db, Counter(r.ad, FirstQuartile, r.day))
    ensures now.q50 == was.q50 + NumAt(db, Counter(r.ad, Midpoint, r.day))
    ensures now.q75 == was.q75 + NumAt(db, Counter(r.ad, ThirdQuartile, r.day))
    ensures now.complete == was.complete + NumAt(db, Counter(r.ad, Complete, r.day))
  {
    assert now.At(Impression) == was.At(Impression) + NumAt(db, Counter(r.ad, Impression, r.day));
    assert now.At(Click) == was.At(Click) + NumAt(db, Counter(r.ad, Click, r.day));
    assert now.At(Start) == was.At(Start) + NumAt(db, Counter(r.ad, Start, r.day));
    assert now.At(FirstQuartile) == was.At(FirstQuartile) + NumAt(db, Counter(r.ad, FirstQuartile, r.day));
    assert now.At(Midpoint) == was.At(Midpoint) + NumAt(db, Counter(r.ad, Midpoint, r.day));
    assert now.At(ThirdQuartile) == was.At(ThirdQuartile) + NumAt(db, Counter(r.ad, ThirdQuartile, r.day));
    assert now.At(Complete) == was.At(Complete) + NumAt(db, Counter(r.ad, Complete, r.day));
  }

  /** Every delta holds what its row's counters held in db. */
  ghost predicate Gathers(deltas: map<Row, StatsDelta>, db: Db)
    reads deltas.Values
  {
    forall r <- deltas :: deltas[r].row == r && Taken(db, r, deltas[r].Cols())
  }

  /** A row drained now, or for the second time. */
  lemma RowVisited(db: Db, mid: Db, end: Db, rows: set<Row>, r: Row, was: Columns, now: Columns)
    requires Without(db, mid, rows) && Without(mid, end, {r}) && Gained(was, now, mid, r, |TRACKED_EVENTS|)
    requires if r in rows then Taken(db, r, was) else was == ZERO
    ensures Without(db, end, rows + {r}) && Taken(db, r, now)
  {
  }

  /** deltas[key], created on first use. */
  method FindDelta(deltas: map<Row, StatsDelta>, ad: ActiveAd, row: Row) returns (out: map<Row, StatsDelta>)
    ensures out.Keys == deltas.Keys + {row}
    ensures if row in deltas then out == deltas
            else out == deltas[row := out[row]] && fresh(out[row]) && out[row].row == row && out[row].Cols() == ZERO
  {
    out := deltas;
    if row !in out {
      var delta := new StatsDelta(row, ad.campaign);
      out := out[row := delta];
    }
  }

  /** One date of one ad. */
  method VisitRow(server: Server, deltas: map<Row, StatsDelta>, ad: ActiveAd, day: int, ghost db: Db)
    returns (out: map<Row, StatsDelta>)
    requires Without(db, server.db, deltas.Keys) && Gathers(deltas, db)
    modifies server`db, deltas.Values
    ensures out.Keys == deltas.Keys + {Row(ad.id, day)}
    ensures Without(db, server.db, out.Keys) && Gathers(out, db)
    ensures fresh(out.Values - deltas.Values)
  {
    var row := Row(ad.id, day);
    out := FindDelta(deltas, ad, row);
    ghost var mid, was := server.db, out[row].Cols();
    DrainRow(server, out[row]);
    RowVisited(db, mid, server.db, deltas.Keys, row, was, out[row].Cols());
  }

  function DatesToDrain(today: int): (dates: seq<int>)
    ensures |dates| == 2
  {
    [today, today - 1]
  }

  /** The rows of the first j dates of an ad. */
  function AdRows(ad: ActiveAd, today: int, j: nat): (rows: set<Row>) {
    if j == 0 then {} else if j == 1 then {Row(ad.id, today)} else {Row(ad.id, today), Row(ad.id, today - 1)}
  }

  lemma RowsNext(ads: seq<ActiveAd>, i: nat, today: int)
    requires i < |ads|
    ensures Rows(ads[..i + 1], today) == Rows(ads[..i], today) + AdRows(ads[i], today, 2)
  {
  }

  /** Both dates of one ad. */
  method DrainAd(server: Server, deltas: map<Row, StatsDelta>, ad: ActiveAd, today: int, ghost db: Db)
    returns (out: map<Row, StatsDelta>)
    requires Without(db, server.db, deltas.Keys) && Gathers(deltas, db)
    modifies server`db, deltas.Values
    ensures out.Keys == deltas.Keys + AdRows(ad, today, 2)
    ensures Without(db, server.db, out.Keys) && Gathers(out, db)
    ensures fresh(out.Values - deltas.Values)
  {
    var dates := DatesToDrain(today);
    out := deltas;
    for j := 0 to |dates|
      invariant out.Keys == deltas.Keys + AdRows(ad, today, j)
      invariant Without(db, server.db, out.Keys) && Gathers(out, db)
      invariant fresh(out.Values - deltas.Values)
    {
      out := VisitRow(server, out, ad, dates[j], db);
    }
  }

  method DrainAds(server: Server, ads: seq<ActiveAd>, today: int) returns (deltas: map<Row, StatsDelta>)
    modifies server`db
    ensures deltas.Keys == Rows(ads, today)
    ensures Without(old(server.db), server.db, Rows(ads, today)) && Gathers(deltas, old(server.db))
    ensures fresh(deltas.Values)
  {
    ghost var db := server.db;
    deltas := map[];
    for i := 0 to |ads|
      invariant deltas.Keys == Rows(ads[..i], today)
      invariant Without(db, server.db, deltas.Keys) && Gathers(deltas, db)
      invariant fresh(deltas.Values)
    {
      RowsNext(ads, i, today);
      deltas := DrainAd(server, deltas, ads[i], today, db);
    }
    assert ads[..|ads|] == ads;
  }

  // --- Writing ------------------------------------------------------------------------------------

  class Database {
    var stats: Stats
    var status: map<Id, string>

    constructor ()
      ensures stats == map[] && status == map[]
    {
      stats, status := map[], map[];
    }

    /** INSERT ... ON CONFLICT DO UPDATE, adding column to column. */
    method Upsert(r: Row, c: Columns)
      modifies this`stats
      ensures r in stats
      ensures var was, now := ColumnsAt(old(stats), r), stats[r];
              && now.impressions == was.impressions + c.impressions && now.clicks == was.clicks + c.clicks
              && now.startCount == was.startCount + c.startCount && now.q25 == was.q25 + c.q25
              && now.q50 == was.q50 + c.q50 && now.q75 == was.q75 + c.q75 && now.complete == was.complete + c.complete
      ensures forall q | q != r :: SameRow(old(stats), stats, q)
    {
      stats := stats[r := if r in stats then stats[r].Plus(c) else ZERO.Plus(c)];
    }

    /** UPDATE ... SET status='completed' WHERE id=$1 AND status='active' */
    method Complete(c: Id) returns (rowsAffected: nat)
      modifies this`status
      ensures if c in old(status) && old(status)[c] == "active" then
                status == old(status)[c := "completed"] && rowsAffected == 1
              else
                status == old(status) && rowsAffected == 0
    {
      rowsAffected := 0;
      if c in status && status[c] == "active" {
        status := status[c := "completed"];
        rowsAffected := 1;
      }
    }
  }

  /** One delta; without counts it is skipped. */
  method WriteDelta(database: Database, r: Row, delta: StatsDelta)
    modifies database`stats
    ensures RowAdded(old(database.stats), database.stats, r, delta.Cols())
    ensures forall q | q != r :: SameRow(old(database.stats), database.stats, q)
  {
    var some := delta.AnyNonZero();
    if some {
      database.Upsert(r, delta.Cols());
    }
  }

  lemma RowNext(was: Stats, mid: Stats, now: Stats, r: Row, c: Columns)
    requires SameRow(was, mid, r) && RowAdded(mid, now, r, c) && forall q | q != r :: SameRow(mid, now, q)
    ensures RowAdded(was, now, r, c)
    ensures forall q | q != r && SameRow(was, mid, q) :: SameRow(was, now, q)
    ensures forall q, k | q != r && RowAdded(was, mid, q, k) :: RowAdded(was, now, q, k)
  {
    forall q, k | q != r && RowAdded(was, mid, q, k) ensures RowAdded(was, now, q, k) {
      assert SameRow(mid, now, q);
    }
    forall q | q != r && SameRow(was, mid, q) ensures SameRow(was, now, q) {
      assert SameRow(mid, now, q);
    }
  }

  /** The deltas in whatever order the map yields them; rows without counts are skipped. */
  method UpsertDeltas(database: Database, deltas: map<Row, StatsDelta>)
    modifies database`stats
    ensures forall r <- deltas :: RowAdded(old(database.stats), database.stats, r, deltas[r].Cols())
    ensures forall r | r !in deltas :: SameRow(old(database.stats), database.stats, r)
  {
    ghost var was := database.stats;
    var todo := deltas.Keys;
    while todo != {}
      invariant todo <= deltas.Keys
      invariant forall r <- deltas :: r !in todo ==> RowAdded(was, database.stats, r, deltas[r].Cols())
      invariant forall r | r !in deltas || r in todo :: SameRow(was, database.stats, r)
      decreases |todo|
    {
      var r :| r in todo;
      assert SameRow(was, database.stats, r);
      ghost var mid := database.stats;
      WriteDelta(database, r, deltas[r]);
      RowNext(was, mid, database.stats, r, deltas[r].Cols());
      todo := todo - {r};
    }
  }

  // --- Pausing ------------------------------------------------------------------------------------

  /** The cap of each capped campaign: that of its first ad. */
  function Caps(ads: seq<ActiveAd>): (caps: map<Id, int>) {
    if ads == [] then map[]
    else
      var caps, ad := Caps(ads[..|ads| - 1]), ads[|ads| - 1];
      if ad.budgetTotal <= 0 || ad.campaign in caps then caps else caps[ad.campaign := ad.budgetTotal]
  }

  predicate Spent(db: Db, c: Id, cap: int) {
    ImpsTotal(c) in db && db[ImpsTotal(c)].value.Num? && db[ImpsTotal(c)].value.n >= cap
  }

  /** Exactly the active campaigns among `spent` were completed. */
  ghost predicate CompletedAre(status: map<Id, string>, s: map<Id, string>, spent: set<Id>) {
    && s.Keys == status.Keys
    && forall c <- status :: s[c] == if c in spent && status[c] == "active" then "completed" else status[c]
  }

  /** One more campaign completed, or found not to be active. */
  lemma CompletedNext(was: map<Id, string>, mid: map<Id, string>, s: map<Id, string>, done: set<Id>, c: Id)
    requires CompletedAre(was, mid, done) && c !in done
    requires s == if c in mid && mid[c] == "active" then mid[c := "completed"] else mid
    ensures CompletedAre(was, s, done + {c})
    ensures s != mid ==> s != was
    ensures mid != was ==> s != was
  {
  }

  function SpentAmong(db: Db, caps: map<Id, int>): (spent: set<Id>) {
    set c | c in caps && Spent(db, c, caps[c])
  }

  method SeenCampaigns(ads: seq<ActiveAd>) returns (seen: map<Id, int>)
    ensures seen == Caps(ads)
  {
    seen := map[];
    for i := 0 to |ads|
      invariant seen == Caps(ads[..i])
    {
      assert ads[..i + 1][..i] == ads[..i];
      if ads[i].budgetTotal > 0 && ads[i].campaign !in seen {
        seen := seen[ads[i].campaign := ads[i].budgetTotal];
      }
    }
    assert ads[..|ads|] == ads;
  }

  /** One campaign: read its counter, complete it if spent. */
  method PauseIfSpent(server: Server, database: Database, c: Id, cap: int) returns (rowsAffected: nat)
    modifies database`status
    ensures if Spent(server.db, c, cap) && c in old(database.status) && old(database.status)[c] == "active" then
              database.status == old(database.status)[c := "completed"] && rowsAffected == 1
            else
              database.status == old(database.status) && rowsAffected == 0
  {
    rowsAffected := 0;
    var k := ImpsTotal(c);
    if k in server.db && server.db[k].value.Num? && server.db[k].value.n >= cap {
      rowsAffected := database.Complete(c);
    }
  }

  method ReconcileBudgets(server: Server, database: Database, ads: seq<ActiveAd>) returns (published: bool)
    modifies database`status
    ensures CompletedAre(old(database.status), database.status, SpentAmong(server.db, Caps(ads)))
    ensures published <==> database.status != old(database.status)
  {
    var seen := SeenCampaigns(ads);
    published := PauseAll(server, database, seen, SpentAmong(server.db, seen));
  }

  /** The second loop of reconcileBudgets. */
  method PauseAll(server: Server, database: Database, seen: map<Id, int>, ghost spent: set<Id>)
    returns (published: bool)
    requires spent <= seen.Keys && forall c <- seen :: c in spent <==> Spent(server.db, c, seen[c])
    modifies database`status
    ensures CompletedAre(old(database.status), database.status, spent)
    ensures published <==> database.status != old(database.status)
  {
    ghost var was := database.status;
    var paused := 0;
    var todo := seen.Keys;
    while todo != {}
      invariant todo <= seen.Keys
      invariant CompletedAre(was, database.status, spent - todo)
      invariant paused >= 0 && (paused > 0 <==> database.status != was)
      decreases |todo|
    {
      var c :| c in todo;
      ghost var mid := database.status;
      var rowsAffected := PauseIfSpent(server, database, c, seen[c]);
      assert spent - (todo - {c}) == spent - todo + if c in spent then {c} else {};
      if c in spent {
        CompletedNext(was, mid, database.status, spent - todo, c);
        assert rowsAffected > 0 ==> database.status[c] != mid[c];
      }
      paused := paused + rowsAffected;
      todo := todo - {c};
    }
    published := paused > 0;
  }

  /** The tick. With no active ad it does nothing at all; otherwise it moves the counts of Rows(ads, today) and
      completes the spent campaigns. */
  method Tick(server: Server, database: Database, ads: seq<ActiveAd>, today: int) returns (published: bool)
    modifies server`db, database
    ensures published <==> database.status != old(database.status)
    ensures ads == [] ==> server.db == old(server.db) && database.stats == old(database.stats)
                          && database.status == old(database.status)
    ensures ads != [] ==>
              && Without(old(server.db), server.db, Rows(ads, today))
              && Added(old(database.stats), database.stats, old(server.db), Rows(ads, today))
              && CompletedAre(old(database.status), database.status, SpentAmong(old(server.db), Caps(ads)))
  {
    if |ads| == 0 {
      return false;
    }
    var deltas := DrainAds(server, ads, today);
    UpsertDeltas(database, deltas);
    published := ReconcileBudgets(server, database, ads);
    SpentStays(old(server.db), server.db, Rows(ads, today), Caps(ads));
  }

  /** Draining touches no budget counter. */
  lemma SpentStays(db: Db, d: Db, rows: set<Row>, caps: map<Id, int>)
    requires Without(db, d, rows)
    ensures SpentAmong(d, caps) == SpentAmong(db, caps)
  {
  }

  /** When all ads of a campaign carry one budget, as the load query yields them, that is its cap. */
  lemma {:induction false} CapsExact(ads: seq<ActiveAd>, c: Id, b: int)
    requires forall ad <- ads :: ad.campaign == c ==> ad.budgetTotal == b
    ensures c in Caps(ads) <==> b > 0 && exists ad <- ads :: ad.campaign == c
    ensures c in Caps(ads) ==> Caps(ads)[c] == b
  {
    if ads != [] {
      var n := |ads| - 1;
      assert ads == ads[..n] + [ads[n]];
      CapsExact(ads[..n], c, b);
    }
  }

  /** The cap looked at is the budget of the campaign's first ad that has one. */
  lemma {:induction false} CapsOfFirst(ads: seq<ActiveAd>, c: Id, i: nat)
    requires i < |ads| && ads[i].campaign == c && ads[i].budgetTotal > 0
    requires forall j | 0 <= j < i :: ads[j].campaign == c ==> ads[j].budgetTotal <= 0
    ensures c in Caps(ads) && Caps(ads)[c] == ads[i].budgetTotal
  {
    var n := |ads| - 1;
    if i < n {
      CapsOfFirst(ads[..n], c, i);
    } else {
      NoCapYet(ads[..n], c);
    }
  }

  lemma {:induction false} NoCapYet(ads: seq<ActiveAd>, c: Id)
    requires forall ad <- ads :: ad.campaign == c ==> ad.budgetTotal <= 0
    ensures c !in Caps(ads)
  {
    if ads != [] {
      assert ads[|ads| - 1] in ads && forall ad <- ads[..|ads| - 1] :: ad in ads;
      NoCapYet(ads[..|ads| - 1], c);
    }
  }

  /** Which status a campaign has after reconciling, when all its ads carry one budget. */
  lemma ReconcileExact(status: map<Id, string>, s: map<Id, string>, db: Db, ads: seq<ActiveAd>, c: Id, b: int)
    requires CompletedAre(status, s, SpentAmong(db, Caps(ads))) && c in status
    requires forall ad <- ads :: ad.campaign == c ==> ad.budgetTotal == b
    requires ImpsTotal(c) in db ==> db[ImpsTotal(c)].value.Num?
    ensures s.Keys == status.Keys
    ensures s[c] == if status[c] == "active" && b > 0 && (exists ad <- ads :: ad.campaign == c)
                       && ImpsTotal(c) in db && db[ImpsTotal(c)].value.n >= b
                    then "completed" else status[c]
  {
    CapsExact(ads, c, b);
  }
}
