/** The /track handler: from the query string to the two Redis commands, and how the protocol's /track steps
    stand for it. */
module Tracking {
  import opened Options
  import opened Events
  import opened Redis
  import P = Pixel
  import T = Text
  import Protocol

  /** Claim, then count: what one accepted fetch does when nothing fails. */
  function TrackEvent(db: Db, ad: Id, imp: Id, ev: Event, now: int, day: int): (d: Db) {
    if Claim(imp, ev) in db then db
    else Incr(SetNx(db, Claim(imp, ev), Num(1), now + Protocol.IDEMPOTENCY_TTL), Counter(ad, ev, day))
  }

  /** While the claim lives a second fetch changes nothing; the first adds one to one counter. */
  lemma FiresOnce(db: Db, ad: Id, imp: Id, ev: Event, now: int, day: int, later: int, laterDay: int)
    ensures var d := TrackEvent(db, ad, imp, ev, now, day);
            && TrackEvent(d, ad, imp, ev, later, laterDay) == d
            && NumAt(d, Counter(ad, ev, day)) ==
               NumAt(db, Counter(ad, ev, day)) + (if Claim(imp, ev) in db then 0 else 1)
            && (Claim(imp, ev) !in db ==> Claim(imp, ev) in d && d[Claim(imp, ev)].expires == Some(now + 86_400_000))
            && (Claim(imp, ev) in db ==> d == db)
            && forall k | k != Claim(imp, ev) && k != Counter(ad, ev, day) ::
                 (k in d <==> k in db) && (k in d ==> d[k] == db[k])
  {
  }

  datatype Outcome = Invalid | Duplicate | Recorded

  /** The pixel a request presents, if it names a tracked event and its signature holds. */
  ghost predicate Presents(signer: P.Signer, f: P.Fields, now: int, ev: Event) {
    EventNamed(f.event) == Tracked(ev) && P.Passes(signer, f, now)
  }

  method ReadPixel(signer: P.Signer, query: string, now: int) returns (f: P.Fields, ev: Lookup)
    ensures f == P.ReadFields(query)
    ensures ev.Tracked? ==> Presents(signer, f, now, ev.ev)
    ensures ev.Unknown? ==> forall e :: !Presents(signer, f, now, e)
  {
    var q := P.ParseQuery(query);
    var exp := P.ParseUnix(P.Get(q, "exp"));
    f := P.Fields(P.Get(q, "event"), P.Get(q, "ad_id"), P.Get(q, "imp_id"), exp, P.Get(q, "sig"));
    ev := Check(signer, f, now);
  }

  method Check(signer: P.Signer, f: P.Fields, now: int) returns (ev: Lookup)
    ensures ev.Tracked? ==> Presents(signer, f, now, ev.ev)
    ensures ev.Unknown? ==> forall e :: !Presents(signer, f, now, e)
  {
    var tracked := IsTracked(f.event);
    if !tracked || f.ad == "" || f.imp == "" || f.sig == "" || f.exp == 0 {
      return Unknown;
    }
    var verdict := P.Verify(signer, f.ad, f.imp, f.event, f.sig, f.exp, now);
    return if verdict == P.Accepted then EventNamed(f.event) else Unknown;
  }

  method ServeTrack(signer: P.Signer, server: Server, query: string, day: int) returns (outcome: Outcome)
    modifies server`db
    ensures outcome.Invalid? ==>
              server.db == old(server.db) && forall e :: !Presents(signer, P.ReadFields(query), server.now / 1000, e)
    ensures !outcome.Invalid? ==>
              exists e :: Presents(signer, P.ReadFields(query), server.now / 1000, e) &&
                var f := P.ReadFields(query);
                && server.db == TrackEvent(old(server.db), f.ad, f.imp, e, server.now, day)
                && (outcome.Duplicate? <==> Claim(f.imp, e) in old(server.db))
  {
    var f, ev := ReadPixel(signer, query, server.now / 1000);
    if ev.Unknown? {
      return Invalid;
    }
    outcome := Record(server, f.ad, f.imp, ev.ev, day);
  }

  /** The two commands of a valid fetch. */
  method Record(server: Server, ad: Id, imp: Id, ev: Event, day: int) returns (outcome: Outcome)
    modifies server`db
    ensures server.db == TrackEvent(old(server.db), ad, imp, ev, server.now, day)
    ensures outcome == if Claim(imp, ev) in old(server.db) then Duplicate else Recorded
  {
    var ok := server.SETNX(Claim(imp, ev), Num(1), Protocol.IDEMPOTENCY_TTL);
    if !ok {
      return Duplicate;
    }
    var _ := server.INCR(Counter(ad, ev, day));
    return Recorded;
  }

  // --- The protocol's view ------------------------------------------------------------------------

  /** The verifying step, for any event: it lets through exactly a pixel of a minted impression, with that
      impression's ad and the expiry printed for it, up to the end of the second it expires in. */
  lemma VerifyStepExact(cfg: Protocol.Config, s: Protocol.State, i: nat)
    requires Protocol.TrackEnabled(cfg, s, i, Protocol.Verify)
    ensures var px, p := s.tracks[i].px, Protocol.TrackNext(cfg, s, i, Protocol.Verify).tracks[i].phase;
            if px.imp in s.minted && px.ad == s.minted[px.imp].ad
               && px.exp == (s.minted[px.imp].at + cfg.tokenTtl) / 1000
               && px.exp > 0 && s.now <= 1000 * px.exp + 999
            then p == Protocol.Verified(s.now) else p == Protocol.Finished
  {
  }

  /** The protocol's three steps, run without failure and without a pause, are the handler's two commands. */
  lemma StepsAreServeTrack(cfg: Protocol.Config, s: Protocol.State, i: nat)
    requires Protocol.TrackEnabled(cfg, s, i, Protocol.ClaimEvent(Protocol.Ok))
    ensures var px := s.tracks[i].px;
            var s1 := Protocol.TrackNext(cfg, s, i, Protocol.ClaimEvent(Protocol.Ok));
            var day := s.now / 86_400_000;
            if Claim(px.imp, px.ev) in s.db then
              s1.tracks[i].phase == Protocol.Finished && s1.db == TrackEvent(s.db, px.ad, px.imp, px.ev, s.now, day)
            else
              && Protocol.TrackEnabled(cfg, s1, i, Protocol.ReadDate)
              && var s2 := Protocol.TrackNext(cfg, s1, i, Protocol.ReadDate);
                 && Protocol.TrackEnabled(cfg, s2, i, Protocol.Count(Protocol.Ok))
                 && Protocol.TrackNext(cfg, s2, i, Protocol.Count(Protocol.Ok)).db ==
                    TrackEvent(s.db, px.ad, px.imp, px.ev, s.now, day)
  {
  }

  /** Each claim and each count is on record. */
  lemma StepsAreRecorded(cfg: Protocol.Config, s: Protocol.State, i: nat)
    requires i < |s.tracks|
    ensures var px := s.tracks[i].px;
            var k, c := (px.imp, px.ev), Protocol.Count(Protocol.Ok);
            Protocol.TrackEnabled(cfg, s, i, c) ==>
              Protocol.NatAt(Protocol.TrackNext(cfg, s, i, c).hist.counted, k) ==
              Protocol.NatAt(s.hist.counted, k) + 1
    ensures var px := s.tracks[i].px;
            var k, c := (px.imp, px.ev), Protocol.ClaimEvent(Protocol.Ok);
            Protocol.TrackEnabled(cfg, s, i, c) && Claim(px.imp, px.ev) !in s.db ==>
              Protocol.LogAt(Protocol.TrackNext(cfg, s, i, c).hist.claims, k) ==
              Protocol.LogAt(s.hist.claims, k) + [s.now]
  {
  }

  /** What /vast prints for an event of a minted impression. */
  function PrintedSig(signer: P.Signer, m: Protocol.Mint, imp: Id, ev: Event): (sig: string) {
    P.Compute(signer, m.ad, imp, ev.Name(), P.ExpiryOf(signer, m.at))
  }

  /** The protocol lets a fetch through when its pixel was minted and is in time; the handler checks a signature. On
      a signature /vast printed for an event e of some minted impression, both mean the same: the request carries
      that impression, that event, its ad and its expiry. */
  lemma PassesIffSigned(cfg: Protocol.Config, s: Protocol.State, signer: P.Signer, imp: Id, e: Event, f: P.Fields,
                        ev: Event, now: int)
    requires P.Unforgeable(signer.mac) && signer.ttl == cfg.tokenTtl
    requires imp in s.minted && '|' !in imp && '|' !in s.minted[imp].ad
    requires P.Complete(f) && f.event == ev.Name()
    requires T.HexDecode(f.sig) == T.HexDecode(PrintedSig(signer, s.minted[imp], imp, e))
    ensures P.Passes(signer, f, now) <==>
            && f.imp == imp && ev == e && f.ad == s.minted[imp].ad && f.exp == (s.minted[imp].at + cfg.tokenTtl) / 1000
            && 0 < f.exp && now <= f.exp
    ensures f.exp >= 0 ==>
              (Protocol.Signed(cfg, s, Protocol.Pixel(f.ad, f.imp, ev, f.exp)) <==>
               f.imp in s.minted && f.ad == s.minted[f.imp].ad && f.exp == (s.minted[f.imp].at + cfg.tokenTtl) / 1000)
  {
    var m := s.minted[imp];
    if P.Passes(signer, f, now) {
      P.SignatureBinds(signer, m.ad, imp, e, P.ExpiryOf(signer, m.at), f, ev, now);
    } else if f.imp == imp && ev == e && f.ad == m.ad && f.exp == P.ExpiryOf(signer, m.at) {
      T.HexRoundTrip(signer.mac(P.Message(m.ad, imp, e.Name(), f.exp)));
    }
  }
}
