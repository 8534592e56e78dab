/** The text of Redis keys. Handlers, enforcers, worker and lock all write to one flat name space; here is why no
    two of them ever mean the same entry by accident. */
module Keys {
  import opened Events
  import opened Redis
  import opened Text

  /** The key as the program spells it; date gives the text of a day number. */
  function Name(k: Key, date: int -> string): (s: string) {
    match k
    case Counter(ad, ev, day) => "ad:" + ad + ":event:" + ev.Name() + ":" + date(day)
    case Claim(imp, ev) => "track:" + imp + ":" + ev.Name()
    case ImpsTotal(campaign) => "campaign:" + campaign + ":imps_total"
    case FreqCount(user, ad) => "user:" + user + ":ad:" + ad + ":count"
    case WorkerLock => "worker:lock"
  }

  /** Ids are UUIDs, without a colon; the user id is whatever the cookie says. */
  predicate PlainIds(k: Key) {
    match k
    case Counter(ad, _, _) => ':' !in ad
    case Claim(imp, _) => ':' !in imp
    case ImpsTotal(campaign) => ':' !in campaign
    case FreqCount(_, ad) => ':' !in ad
    case WorkerLock => true
  }

  ghost predicate Injective(date: int -> string) {
    forall d, e :: date(d) == date(e) ==> d == e
  }

  lemma EventHasNoColon(ev: Event)
    ensures ':' !in ev.Name()
  {
  }

  lemma CounterParts(ad: string, ev: string, day: string, ad': string, ev': string, day': string)
    requires "ad:" + ad + ":event:" + ev + ":" + day == "ad:" + ad' + ":event:" + ev' + ":" + day'
    requires ':' !in ad && ':' !in ad' && ':' !in ev && ':' !in ev'
    ensures ad == ad' && ev == ev' && day == day'
  {
    var x, y := "event:" + ev + ":" + day, "event:" + ev' + ":" + day';
    assert ad + ":" + x == ("ad:" + ad + ":event:" + ev + ":" + day)[3..];
    assert ad' + ":" + y == ("ad:" + ad' + ":event:" + ev' + ":" + day')[3..];
    CutFirst(ad, x, ad', y, ':');
    assert ev + ":" + day == x[6..];
    assert ev' + ":" + day' == y[6..];
    CutFirst(ev, day, ev', day', ':');
  }

  lemma CounterNames(k: Key, l: Key, date: int -> string)
    requires k.Counter? && l.Counter? && PlainIds(k) && PlainIds(l) && Injective(date)
    requires Name(k, date) == Name(l, date)
    ensures k == l
  {
    EventHasNoColon(k.ev);
    EventHasNoColon(l.ev);
    CounterParts(k.ad, k.ev.Name(), date(k.day), l.ad, l.ev.Name(), date(l.day));
    NamesDistinct(k.ev, l.ev);
  }

  lemma ClaimParts(imp: string, ev: string, imp': string, ev': string)
    requires "track:" + imp + ":" + ev == "track:" + imp' + ":" + ev' && ':' !in imp && ':' !in imp'
    ensures imp == imp' && ev == ev'
  {
    assert imp + ":" + ev == ("track:" + imp + ":" + ev)[6..];
    assert imp' + ":" + ev' == ("track:" + imp' + ":" + ev')[6..];
    CutFirst(imp, ev, imp', ev', ':');
  }

  lemma ClaimNames(k: Key, l: Key, date: int -> string)
    requires k.Claim? && l.Claim? && PlainIds(k) && PlainIds(l)
    requires Name(k, date) == Name(l, date)
    ensures k == l
  {
    ClaimParts(k.imp, k.ev.Name(), l.imp, l.ev.Name());
    NamesDistinct(k.ev, l.ev);
  }

  lemma TotalNames(k: Key, l: Key, date: int -> string)
    requires k.ImpsTotal? && l.ImpsTotal? && PlainIds(k) && PlainIds(l)
    requires Name(k, date) == Name(l, date)
    ensures k == l
  {
    assert k.campaign + ":" + "imps_total" == Name(k, date)[9..];
    assert l.campaign + ":" + "imps_total" == Name(l, date)[9..];
    CutFirst(k.campaign, "imps_total", l.campaign, "imps_total", ':');
  }

  /** Read from the right, so that even a user id full of colons cannot pass for another user or ad. */
  lemma FreqNames(k: Key, l: Key, date: int -> string)
    requires k.FreqCount? && l.FreqCount? && PlainIds(k) && PlainIds(l)
    requires Name(k, date) == Name(l, date)
    ensures k == l
  {
    var x, y := "user:" + k.user + ":ad", "user:" + l.user + ":ad";
    assert x + ":" + k.adId + ":" + "count" == Name(k, date);
    assert y + ":" + l.adId + ":" + "count" == Name(l, date);
    CutLast(x + ":" + k.adId, "count", y + ":" + l.adId, "count", ':');
    CutLast(x, k.adId, y, l.adId, ':');
    assert k.user == x[5..|x| - 3] && l.user == y[5..|y| - 3];
  }

  /** Distinct keys have distinct names, within each family and across families. */
  lemma NamesNeverCollide(k: Key, l: Key, date: int -> string)
    requires PlainIds(k) && PlainIds(l) && forall d, e :: date(d) == date(e) ==> d == e
    ensures Name(k, date) == Name(l, date) <==> k == l
  {
    if Name(k, date) == Name(l, date) {
      assert Name(k, date)[0] == Name(l, date)[0];
      match k
      case Counter(_, _, _) => CounterNames(k, l, date);
      case Claim(_, _) => ClaimNames(k, l, date);
      case ImpsTotal(_) => TotalNames(k, l, date);
      case FreqCount(_, _) => FreqNames(k, l, date);
      case WorkerLock =>
    }
  }

  /** The texts, letter by letter, for the event whose name is longest. */
  lemma KeyTexts(id: Id, other: Id, day: int, date: int -> string)
    ensures Name(Counter(id, FirstQuartile, day), date) == "ad:" + id + ":event:firstQuartile:" + date(day)
    ensures Name(Claim(id, FirstQuartile), date) == "track:" + id + ":firstQuartile"
    ensures Name(ImpsTotal(id), date) == "campaign:" + id + ":imps_total"
    ensures Name(FreqCount(other, id), date) == "user:" + other + ":ad:" + id + ":count"
    ensures Name(WorkerLock, date) == "worker:lock"
  {
    assert FirstQuartile.Name() == "firstQuartile";
    assert "ad:" + id + ":event:" + "firstQuartile" + ":" == "ad:" + id + ":event:firstQuartile:";
    assert "track:" + id + ":" + "firstQuartile" == "track:" + id + ":firstQuartile";
  }
}
