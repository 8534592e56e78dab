/** The tracked events and the per-(ad, day) row of counts that holds one column for each. */
module Events {

  datatype Event = Impression | Click | Start | FirstQuartile | Midpoint | ThirdQuartile | Complete
  {
    /** The string baked into pixel URLs and Redis keys. */
    function Name(): (s: string) {
      match this
      case Impression => "impression"
      case Click => "click"
      case Start => "start"
      case FirstQuartile => "firstQuartile"
      case Midpoint => "midpoint"
      case ThirdQuartile => "thirdQuartile"
      case Complete => "complete"
    }
  }

  const TRACKED_EVENTS: seq<Event> := [Impression, Click, Start, FirstQuartile, Midpoint, ThirdQuartile, Complete]

  /** The linear scan of the allowlist. */
  method IsTracked(event: string) returns (tracked: bool)
    ensures tracked <==>
            event in {"impression", "click", "start", "firstQuartile", "midpoint", "thirdQuartile", "complete"}
    ensures tracked <==> exists e: Event :: e.Name() == event
  {
    EventTexts();
    for i := 0 to |TRACKED_EVENTS|
      invariant forall j | 0 <= j < i :: TRACKED_EVENTS[j].Name() != event
    {
      if TRACKED_EVENTS[i].Name() == event {
        return true;
      }
    }
    forall e: Event
      ensures e.Name() != event
    {
      AllTracked(e);
    }
    return false;
  }

  datatype Lookup = Unknown | Tracked(ev: Event)

  /** The event a name stands for. */
  function EventNamed(name: string): (r: Lookup)
    ensures r.Tracked? ==> r.ev.Name() == name
    ensures forall e: Event :: e.Name() == name ==> r == Tracked(e)
  {
    if name == "impression" then Tracked(Impression)
    else if name == "click" then Tracked(Click)
    else if name == "start" then Tracked(Start)
    else if name == "firstQuartile" then Tracked(FirstQuartile)
    else if name == "midpoint" then Tracked(Midpoint)
    else if name == "thirdQuartile" then Tracked(ThirdQuartile)
    else if name == "complete" then Tracked(Complete)
    else Unknown
  }

  /** The vocabulary, word by word. */
  lemma EventTexts()
    ensures Impression.Name() == "impression" && Click.Name() == "click" && Start.Name() == "start"
    ensures FirstQuartile.Name() == "firstQuartile" && Midpoint.Name() == "midpoint"
    ensures ThirdQuartile.Name() == "thirdQuartile" && Complete.Name() == "complete"
    ensures EventNamed("impression") == Tracked(Impression) && EventNamed("click") == Tracked(Click)
    ensures EventNamed("start") == Tracked(Start) && EventNamed("firstQuartile") == Tracked(FirstQuartile)
    ensures EventNamed("midpoint") == Tracked(Midpoint) && EventNamed("thirdQuartile") == Tracked(ThirdQuartile)
    ensures EventNamed("complete") == Tracked(Complete)
  {
  }

  /** The drainer's list covers every event the reader accepts, each once. */
  lemma AllTracked(e: Event)
    ensures e in TRACKED_EVENTS
    ensures exists i :: 0 <= i < |TRACKED_EVENTS| && TRACKED_EVENTS[i] == e
  {
  }

  lemma NamesDistinct(e: Event, f: Event)
    ensures e.Name() == f.Name() ==> e == f
  {
  }

  /** The columns of a daily_stats row, by event. An absent column is zero. */
  type Counts = map<Event, nat>

  function Column(c: Counts, e: Event): nat {
    if e in c then c[e] else 0
  }

  predicate AnyNonZero(c: Counts) {
    exists e: Event :: Column(c, e) > 0
  }

  /** One row of daily_stats: an ad and a day number. */
  datatype Row = Row(ad: string, day: int)

  type Tally = map<Row, Counts>

  function At(t: Tally, r: Row): Counts {
    if r in t then t[r] else map[]
  }

  /** A single count of a tally. */
  function Cell(t: Tally, r: Row, e: Event): nat {
    Column(At(t, r), e)
  }

  /** Row by row, column by column. */
  function AddRows(t: Tally, u: Tally): (v: Tally) {
    map r | r in t.Keys + u.Keys :: PlusCounts(At(t, r), At(u, r))
  }

  function PlusCounts(c: Counts, d: Counts): (b: Counts) {
    map e | e in c.Keys + d.Keys :: Column(c, e) + Column(d, e)
  }

  lemma AddRowsCell(t: Tally, u: Tally, r: Row, e: Event)
    ensures Cell(AddRows(t, u), r, e) == Cell(t, r, e) + Cell(u, r, e)
  {
  }

  function Bump(t: Tally, r: Row, e: Event, n: nat): (v: Tally) {
    t[r := At(t, r)[e := Column(At(t, r), e) + n]]
  }

  lemma BumpCell(t: Tally, r: Row, e: Event, n: nat, q: Row, f: Event)
    ensures Cell(Bump(t, r, e, n), q, f) == Cell(t, q, f) + (if q == r && f == e then n else 0)
  {
  }
}
