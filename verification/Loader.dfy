/** Normalising the targeting lists as they come out of the database, in place, and what the index gains by it. */
module Loader {
  import opened Options
  import opened Registry
  import opened Selection
  import opened SelectionTheorems

  /** Case folding and trimming, as the two normalisers use them, is a parameter. */
  type Fold = string -> string

  predicate KnownDevice(d: string) {
    d == "mobile" || d == "tablet" || d == "desktop" || d == "ctv"
  }

  predicate KeepsCountry(c: string) {
    c != ""
  }

  /** The folded names that are kept, in order. */
  function Normalised(raw: seq<string>, fold: Fold, keep: string -> bool): (names: seq<string>)
    ensures |names| <= |raw|
  {
    if raw == [] then []
    else
      var c, front := fold(raw[|raw| - 1]), Normalised(raw[..|raw| - 1], fold, keep);
      if keep(c) then front + [c] else front
  }

  /** A name is in the list exactly when it is kept and some raw name folds to it. */
  lemma {:induction false} NormalisedExact(raw: seq<string>, fold: Fold, keep: string -> bool, name: string)
    ensures name in Normalised(raw, fold, keep) <==> keep(name) && exists i :: 0 <= i < |raw| && fold(raw[i]) == name
  {
    if raw != [] {
      var n := |raw| - 1;
      NormalisedExact(raw[..n], fold, keep, name);
      if i :| 0 <= i < |raw| && fold(raw[i]) == name {
        assert i == n || raw[..n][i] == raw[i];
      }
    }
  }

  /** Countries keep every name but the empty one; devices keep four names. */
  lemma KeptNames(raw: seq<string>, fold: Fold, name: string)
    ensures name in Normalised(raw, fold, KeepsCountry) <==>
            name != "" && exists i :: 0 <= i < |raw| && fold(raw[i]) == name
    ensures name in Normalised(raw, fold, KnownDevice) <==>
            name in {"mobile", "tablet", "desktop", "ctv"} && exists i :: 0 <= i < |raw| && fold(raw[i]) == name
  {
    NormalisedExact(raw, fold, KeepsCountry, name);
    NormalisedExact(raw, fold, KnownDevice, name);
  }

  /** The order is kept: what comes first in the raw list comes first. */
  lemma {:induction false} NormalisedInOrder(raw: seq<string>, more: seq<string>, fold: Fold, keep: string -> bool)
    ensures Normalised(raw + more, fold, keep) == Normalised(raw, fold, keep) + Normalised(more, fold, keep)
  {
    if more == [] {
      assert raw + more == raw;
    } else {
      var n := |more| - 1;
      assert (raw + more)[..|raw + more| - 1] == raw + more[..n];
      NormalisedInOrder(raw, more[..n], fold, keep);
    }
  }

  /** out := in[:0]: the kept names are written over the ones already read. The result is the first n entries; an
      empty result is nil. */
  method NormaliseCountries(a: array<string>, fold: Fold) returns (n: nat)
    modifies a
    ensures n <= a.Length && a[..n] == Normalised(old(a[..]), fold, KeepsCountry)
  {
    n := 0;
    for i := 0 to a.Length
      invariant n <= i && a[..n] == Normalised(old(a[..])[..i], fold, KeepsCountry)
      invariant forall k | i <= k < a.Length :: a[k] == old(a[k])
    {
      assert a[i] == old(a[..])[i];
      assert old(a[..])[..i + 1][..i] == old(a[..])[..i];
      var c := fold(a[i]);
      ghost var kept := a[..n];
      if c != "" {
        a[n] := c;
        n := n + 1;
        assert a[..n] == kept + [c];
      }
    }
    assert old(a[..])[..a.Length] == old(a[..]);
  }

  method NormaliseDevices(a: array<string>, fold: Fold) returns (n: nat)
    modifies a
    ensures n <= a.Length && a[..n] == Normalised(old(a[..]), fold, KnownDevice)
  {
    n := 0;
    for i := 0 to a.Length
      invariant n <= i && a[..n] == Normalised(old(a[..])[..i], fold, KnownDevice)
      invariant forall k | i <= k < a.Length :: a[k] == old(a[k])
    {
      assert a[i] == old(a[..])[i];
      assert old(a[..])[..i + 1][..i] == old(a[..])[..i];
      var d := fold(a[i]);
      ghost var kept := a[..n];
      if d == "mobile" || d == "tablet" || d == "desktop" || d == "ctv" {
        a[n] := d;
        n := n + 1;
        assert a[..n] == kept + [d];
      }
    }
    assert old(a[..])[..a.Length] == old(a[..]);
  }

  /** The ads carry the normalised form of these raw lists. */
  ghost predicate LoadedCountries(ads: seq<Ad>, raw: seq<seq<string>>, fold: Fold) {
    |raw| == |ads| && forall i | 0 <= i < |ads| :: ads[i].countries == Normalised(raw[i], fold, KeepsCountry)
  }

  ghost predicate LoadedDevices(ads: seq<Ad>, raw: seq<seq<string>>, fold: Fold) {
    |raw| == |ads| && forall i | 0 <= i < |ads| :: ads[i].devices == Normalised(raw[i], fold, KnownDevice)
  }

  /** No raw country folds to the wildcard. */
  ghost predicate NoStar(raw: seq<seq<string>>, fold: Fold) {
    forall i, j | 0 <= i < |raw| && 0 <= j < |raw[i]| :: fold(raw[i][j]) != "*"
  }

  /** After loading, the country index is right for every request exactly when nobody typed a "*" as a country. */
  lemma CountriesExactIff(ads: seq<Ad>, raw: seq<seq<string>>, fold: Fold)
    requires LoadedCountries(ads, raw, fold)
    ensures (forall name :: IndexAgrees(ads, Country, name)) <==> NoStar(raw, fold)
  {
    IndexAgreesAlwaysIff(ads, Country);
    forall i | 0 <= i < |ads|
      ensures "" !in ads[i].countries
      ensures WILDCARD_KEY in ads[i].countries <==> exists j :: 0 <= j < |raw[i]| && fold(raw[i][j]) == WILDCARD_KEY
    {
      NormalisedExact(raw[i], fold, KeepsCountry, "");
      NormalisedExact(raw[i], fold, KeepsCountry, WILDCARD_KEY);
    }
    if Lists(ads, Country, WILDCARD_KEY) {
      var i :| 0 <= i < |ads| && WILDCARD_KEY in Targets(ads[i], Country);
      assert !NoStar(raw, fold);
    } else {
      forall i, j | 0 <= i < |raw| && 0 <= j < |raw[i]| ensures fold(raw[i][j]) != WILDCARD_KEY {
        assert WILDCARD_KEY !in Targets(ads[i], Country);
      }
    }
    assert !Lists(ads, Country, "");
  }

  /** After loading, the device index is right for every request. */
  lemma DevicesExact(ads: seq<Ad>, raw: seq<seq<string>>, fold: Fold)
    requires LoadedDevices(ads, raw, fold)
    ensures forall name :: IndexAgrees(ads, Device, name)
  {
    forall i | 0 <= i < |ads| ensures "" !in ads[i].devices && WILDCARD_KEY !in ads[i].devices {
      NormalisedExact(raw[i], fold, KnownDevice, "");
      NormalisedExact(raw[i], fold, KnownDevice, WILDCARD_KEY);
    }
    IndexAgreesAlwaysIff(ads, Device);
  }

  /** An ad whose device list names no known device ends up targeting every device. */
  lemma UnknownDevicesWiden(raw: seq<string>, fold: Fold)
    ensures Normalised(raw, fold, KnownDevice) == [] <==>
            forall i | 0 <= i < |raw| :: fold(raw[i]) !in {"mobile", "tablet", "desktop", "ctv"}
  {
    var names := Normalised(raw, fold, KnownDevice);
    if names != [] {
      NormalisedExact(raw, fold, KnownDevice, names[0]);
    } else {
      forall i | 0 <= i < |raw| ensures fold(raw[i]) !in {"mobile", "tablet", "desktop", "ctv"} {
        NormalisedExact(raw, fold, KnownDevice, fold(raw[i]));
      }
    }
  }

  /** After loading, and with nobody's country a "*", selection is the naive scan for every request whose mid-roll
      offset keeps clear of the int32 ends. */
  lemma LoadedSelectionRefinesScan(ads: seq<Ad>, ws: seq<real>, rawCountries: seq<seq<string>>,
                                   rawDevices: seq<seq<string>>, fold: Fold, foldDevice: Fold, req: Request, rand: Rand)
    requires LoadedCountries(ads, rawCountries, fold) && LoadedDevices(ads, rawDevices, foldDevice)
    requires |ws| == |ads| && (req.pos == "mid" ==> -0x7FFF_FFFE <= req.offset <= 0x7FFF_FFFD)
    requires forall i, j | 0 <= i < |rawCountries| && 0 <= j < |rawCountries[i]| :: fold(rawCountries[i][j]) != "*"
    ensures Selected(ads, ws, req, rand) == None <==>
            forall i: nat :: !(i < |ads| && Eligible(ads[i], req) && i !in req.excluded)
    ensures forall i :: Selected(ads, ws, req, rand) == Some(i) ==>
              && i < |ads| && Eligible(ads[i], req) && i !in req.excluded
              && forall j: nat | j < |ads| && Eligible(ads[j], req) && j !in req.excluded ::
                   ads[j].priority <= ads[i].priority
  {
    CountriesExactIff(ads, rawCountries, fold);
    DevicesExact(ads, rawDevices, foldDevice);
    IndexAgreesIff(ads, Country, req.country);
    IndexAgreesIff(ads, Device, req.device);
    SelectRefinesScan(ads, ws, req, rand);
    assert forall i: nat :: Available(ads, req, i) <==> i < |ads| && Eligible(ads[i], req) && i !in req.excluded;
  }
}
