/**
 * The target registry (`register_target`, `resolve_target`): an append-only list of entries
 * in which a target is what the last non-empty values say, and to which nothing is added
 * that says nothing new.
 */
module Registry {
  import opened Text

  datatype KeyScheme = UrlHash | TitleFallback | StreamIdHash | ContentFallback

  /** An entry, as the ingests offer it; empty for a URL or label that is not given. */
  datatype Registration = Registration(target: string, scheme: KeyScheme, url: string, title: string)

  predicate Known(entries: seq<Registration>, target: string) {
    exists i :: 0 <= i < |entries| && entries[i].target == target
  }

  /** The last URL that is not empty. */
  function LatestUrl(entries: seq<Registration>, target: string): string {
    if entries == [] then ""
    else
      var last := entries[|entries| - 1];
      if last.target == target && last.url != "" then last.url else LatestUrl(entries[..|entries| - 1], target)
  }

  function LatestTitle(entries: seq<Registration>, target: string): string {
    if entries == [] then ""
    else
      var last := entries[|entries| - 1];
      if last.target == target && last.title != "" then last.title else LatestTitle(entries[..|entries| - 1], target)
  }

  /** The offer is compared stripped, with a URL that was stored as it came. */
  predicate SaysNothingNew(entries: seq<Registration>, e: Registration) {
    && Known(entries, e.target)
    && (Strip(e.url) == "" || Strip(e.url) == LatestUrl(entries, e.target))
    && (e.title == "" || e.title == LatestTitle(entries, e.target))
  }

  function Registered(entries: seq<Registration>, e: Registration): seq<Registration> {
    if SaysNothingNew(entries, e) then entries else entries + [e]
  }

  /** One offer after another. */
  function RegisteredAll(entries: seq<Registration>, offers: seq<Registration>): seq<Registration> {
    if offers == [] then entries else Registered(RegisteredAll(entries, offers[..|offers| - 1]), offers[|offers| - 1])
  }

  class TargetRegistry {
    var entries: seq<Registration>

    constructor ()
      ensures entries == []
    {
      entries := [];
    }

    /** `resolve_target`: one pass over the entries, later values over earlier ones. */
    method Resolve(target: string) returns (known: bool, url: string, title: string)
      ensures known == Known(entries, target) && url == LatestUrl(entries, target) && title == LatestTitle(entries, target)
    {
      known, url, title := false, "", "";
      assert entries[..0] == [];
      for i := 0 to |entries|
        invariant known == Known(entries[..i], target)
        invariant url == LatestUrl(entries[..i], target) && title == LatestTitle(entries[..i], target)
      {
        var e := entries[i];
        assert entries[..i + 1][..i] == entries[..i];
        KnownGrows(entries[..i], e, target);
        assert entries[..i + 1] == entries[..i] + [e];
        if e.target == target {
          known := true;
          if e.url != "" { url := e.url; }
          if e.title != "" { title := e.title; }
        }
      }
      assert entries[..|entries|] == entries;
    }

    /** `register_target`. */
    method Register(e: Registration)
      modifies this
      ensures entries == Registered(old(entries), e)
    {
      var known, url, title := Resolve(e.target);
      var urlChanged := Strip(e.url) != "" && Strip(e.url) != url;
      var hasNewLabel := e.title != "" && e.title != title;
      if known && !urlChanged && !hasNewLabel { return; }
      entries := entries + [e];
    }
  }

  lemma KnownGrows(entries: seq<Registration>, e: Registration, target: string)
    ensures Known(entries + [e], target) <==> Known(entries, target) || e.target == target
  {
    var more := entries + [e];
    assert more[|entries|] == e;
    assert forall i :: 0 <= i < |entries| ==> more[i] == entries[i];
  }

  // ------------------------------------------------- what registering means

  /** Nothing is taken back, other targets are as before, and the target says what was offered where something was offered. */
  lemma RegisteredMeans(entries: seq<Registration>, e: Registration, other: string)
    ensures entries <= Registered(entries, e) && Known(Registered(entries, e), e.target)
    ensures LatestTitle(Registered(entries, e), e.target) == if e.title != "" then e.title else LatestTitle(entries, e.target)
    ensures Strip(e.url) != "" ==> Strip(LatestUrl(Registered(entries, e), e.target)) == Strip(e.url)
    ensures other != e.target ==>
              && (Known(Registered(entries, e), other) <==> Known(entries, other))
              && LatestUrl(Registered(entries, e), other) == LatestUrl(entries, other)
              && LatestTitle(Registered(entries, e), other) == LatestTitle(entries, other)
  {
    KnownGrows(entries, e, e.target);
    KnownGrows(entries, e, other);
    assert (entries + [e])[..|entries|] == entries;
    StripTwice(e.url);
  }

  lemma {:induction false} LeftStripped(s: string)
    ensures StripLeft(s) == "" || !IsSpace(StripLeft(s)[0])
    ensures |StripLeft(s)| <= |s| && (s != "" && IsSpace(s[0]) ==> |StripLeft(s)| < |s|)
  {
    if s != "" && IsSpace(s[0]) { LeftStripped(s[1..]); }
  }

  lemma {:induction false} RightStripped(s: string)
    ensures StripRight(s) == "" || !IsSpace(StripRight(s)[|StripRight(s)| - 1])
    ensures StripRight(s) <= s
  {
    if s != "" && IsSpace(s[|s| - 1]) { RightStripped(s[..|s| - 1]); }
  }

  lemma StripTwice(s: string)
    ensures Strip(Strip(s)) == Strip(s)
  {
    LeftStripped(s);
    RightStripped(StripLeft(s));
  }

  /**
   * Offering an entry again adds nothing exactly when the first offer added nothing already,
   * or the URL has no white space around it: a padded URL is stored padded, compared
   * stripped, and so added on every call.
   */
  lemma RepeatAddsNothingExact(entries: seq<Registration>, e: Registration)
    ensures Registered(Registered(entries, e), e) == Registered(entries, e) <==>
              SaysNothingNew(entries, e) || Strip(e.url) == "" || Strip(e.url) == e.url
  {
    var now := Registered(entries, e);
    KnownGrows(entries, e, e.target);
    assert (entries + [e])[..|entries|] == entries;
    assert |now + [e]| != |now|;
    if !SaysNothingNew(entries, e) && e.url == "" { assert Strip("") == ""; }
  }

  predicate DistinctTargets(offers: seq<Registration>) {
    forall i, j :: 0 <= i < j < |offers| ==> offers[i].target != offers[j].target
  }

  /** No white space around the URL, or nothing else in it. */
  predicate Unpadded(e: Registration) {
    Strip(e.url) == "" || Strip(e.url) == e.url
  }

  lemma SaidOnce(entries: seq<Registration>, e: Registration)
    requires Unpadded(e)
    ensures SaysNothingNew(Registered(entries, e), e)
  {
    RepeatAddsNothingExact(entries, e);
    var now := Registered(entries, e);
    assert |now + [e]| != |now|;
  }

  lemma SaidStays(entries: seq<Registration>, e: Registration, other: Registration)
    requires SaysNothingNew(entries, e) && e.target != other.target
    ensures SaysNothingNew(Registered(entries, other), e)
  {
    hide LatestUrl, LatestTitle, Strip;
    RegisteredMeans(entries, other, e.target);
  }

  lemma {:induction false} AllSaid(entries: seq<Registration>, offers: seq<Registration>, k: nat)
    requires DistinctTargets(offers) && k < |offers| && forall i :: 0 <= i < |offers| ==> Unpadded(offers[i])
    ensures SaysNothingNew(RegisteredAll(entries, offers), offers[k])
  {
    hide SaysNothingNew, Registered, Unpadded;
    var n := |offers| - 1;
    var before := RegisteredAll(entries, offers[..n]);
    if k == n {
      SaidOnce(before, offers[n]);
    } else {
      AllSaid(entries, offers[..n], k);
      SaidStays(before, offers[k], offers[n]);
    }
  }

  lemma {:induction false} NothingAdded(entries: seq<Registration>, offers: seq<Registration>)
    requires forall i :: 0 <= i < |offers| ==> SaysNothingNew(entries, offers[i])
    ensures RegisteredAll(entries, offers) == entries
  {
    hide SaysNothingNew;
    if offers != [] { NothingAdded(entries, offers[..|offers| - 1]); }
  }

  /** Offering the same targets again leaves the registry as it is, when no URL is padded. */
  lemma OffersTwice(entries: seq<Registration>, offers: seq<Registration>)
    requires DistinctTargets(offers) && forall i :: 0 <= i < |offers| ==> Unpadded(offers[i])
    ensures RegisteredAll(RegisteredAll(entries, offers), offers) == RegisteredAll(entries, offers)
  {
    hide SaysNothingNew, Unpadded, RegisteredAll;
    forall i | 0 <= i < |offers| ensures SaysNothingNew(RegisteredAll(entries, offers), offers[i]) {
      AllSaid(entries, offers, i);
    }
    NothingAdded(RegisteredAll(entries, offers), offers);
  }
}
