/**
 * Thumbnail URL templating and the availability probe's verdict
 * (getThumbnailUrls and checkThumbnailAvailability).
 */
module Thumbnails {
  import opened Types

  const ImageBase: string := "https://img.youtube.com/vi/"

  /** What follows the id in each tier's URL: a slash and the image file the host serves. */
  function Tail(t: Tier): string {
    match t
    case MaxRes => "/maxresdefault.jpg"
    case Hq => "/hqdefault.jpg"
    case Mq => "/mqdefault.jpg"
    case Sd => "/sddefault.jpg"
  }

  function ThumbnailUrl(videoId: string, t: Tier): string {
    ImageBase + videoId + Tail(t)
  }

  /** The object `getThumbnailUrls` returns. */
  datatype ThumbnailUrls = ThumbnailUrls(maxRes: string, hq: string, mq: string, sd: string) {
    function Get(t: Tier): string {
      match t
      case MaxRes => maxRes
      case Hq => hq
      case Mq => mq
      case Sd => sd
    }
  }

  function GetThumbnailUrls(videoId: string): ThumbnailUrls {
    ThumbnailUrls(
      ThumbnailUrl(videoId, MaxRes),
      ThumbnailUrl(videoId, Hq),
      ThumbnailUrl(videoId, Mq),
      ThumbnailUrl(videoId, Sd))
  }

  predicate EndsWith(s: string, suffix: string) {
    |suffix| <= |s| && s[|s| - |suffix|..] == suffix
  }

  /** Strips `suffix` from the end of `s`. */
  function DropSuffix(s: string, suffix: string): (r: string)
    requires EndsWith(s, suffix)
    ensures s == r + suffix
  {
    var r := s[..|s| - |suffix|];
    assert s == r + s[|s| - |suffix|..];
    r
  }

  /** The inverse of the template's tail: the id and the tier named by `<id>/<file>`. */
  function ParseTail(rest: string): (r: Option<(string, Tier)>)
    ensures r.Some? ==> rest == r.value.0 + Tail(r.value.1)
  {
    if EndsWith(rest, Tail(MaxRes)) then Some((DropSuffix(rest, Tail(MaxRes)), MaxRes))
    else if EndsWith(rest, Tail(Hq)) then Some((DropSuffix(rest, Tail(Hq)), Hq))
    else if EndsWith(rest, Tail(Mq)) then Some((DropSuffix(rest, Tail(Mq)), Mq))
    else if EndsWith(rest, Tail(Sd)) then Some((DropSuffix(rest, Tail(Sd)), Sd))
    else None
  }

  /** The inverse of the template: the video id and the tier that a thumbnail URL names. */
  function ParseThumbnailUrl(url: string): (r: Option<(string, Tier)>)
    ensures r.Some? ==> url == ThumbnailUrl(r.value.0, r.value.1)
  {
    if |url| < |ImageBase| || url[..|ImageBase|] != ImageBase then None
    else
      var rest := url[|ImageBase|..];
      assert url == ImageBase + rest;
      ParseTail(rest)
  }

  /** Two characters near the end tell the four tails apart: the 14th and 13th from the end. */
  lemma TailMarks(t: Tier)
    ensures |Tail(t)| >= 14
    ensures Tail(t)[|Tail(t)| - 14] == (if t == MaxRes then 'r' else '/')
    ensures Tail(t)[|Tail(t)| - 13] == (match t case MaxRes => 'e' case Hq => 'h' case Mq => 'm' case Sd => 's')
  {
  }

  /** No text ends with two different tails. */
  lemma TailsDistinct(rest: string, t: Tier, u: Tier)
    requires EndsWith(rest, Tail(t)) && EndsWith(rest, Tail(u))
    ensures t == u
  {
    var n := |rest|;
    TailMarks(t);
    TailMarks(u);
    assert rest[n - 14] == rest[n - |Tail(t)|..][|Tail(t)| - 14] && rest[n - 13] == rest[n - |Tail(t)|..][|Tail(t)| - 13];
    assert rest[n - 14] == rest[n - |Tail(u)|..][|Tail(u)| - 14] && rest[n - 13] == rest[n - |Tail(u)|..][|Tail(u)| - 13];
  }

  /** Parsing a tail finds its own tier and the id before it. */
  lemma TailRoundTrip(videoId: string, t: Tier)
    ensures ParseTail(videoId + Tail(t)) == Some((videoId, t))
  {
    var rest := videoId + Tail(t);
    assert rest[|rest| - |Tail(t)|..] == Tail(t);
    forall u | EndsWith(rest, Tail(u)) ensures u == t {
      TailsDistinct(rest, t, u);
    }
    var r := ParseTail(rest);
    assert r.Some?;
    assert r.value.1 == t;
    assert rest == r.value.0 + Tail(t);
    assert r.value.0 == rest[..|rest| - |Tail(t)|] == videoId;
  }

  /** Parsing a URL of the template gives back the id and the tier. */
  lemma UrlRoundTrip(videoId: string, t: Tier)
    ensures ParseThumbnailUrl(ThumbnailUrl(videoId, t)) == Some((videoId, t))
  {
    var url := ThumbnailUrl(videoId, t);
    assert url == ImageBase + (videoId + Tail(t));
    assert url[..|ImageBase|] == ImageBase;
    assert url[|ImageBase|..] == videoId + Tail(t);
    TailRoundTrip(videoId, t);
  }

  /** The object holds, under each tier, the URL of that tier's image for the id. */
  lemma GetThumbnailUrlsMeaning(videoId: string, t: Tier)
    ensures ParseThumbnailUrl(GetThumbnailUrls(videoId).Get(t)) == Some((videoId, t))
  {
    UrlRoundTrip(videoId, t);
  }

  /** Different ids give different URLs, and one id's four URLs are pairwise distinct. */
  lemma UrlsInjective(id1: string, t1: Tier, id2: string, t2: Tier)
    ensures GetThumbnailUrls(id1).Get(t1) == GetThumbnailUrls(id2).Get(t2) <==> id1 == id2 && t1 == t2
  {
    GetThumbnailUrlsMeaning(id1, t1);
    GetThumbnailUrlsMeaning(id2, t2);
  }

  /** What the image load returned: its width in pixels, or an error. */
  datatype ImageLoad = Loaded(width: nat) | LoadError

  /** The width of the host's placeholder image; a real thumbnail is wider. */
  const PlaceholderWidth: nat := 120

  /** `checkThumbnailAvailability`: the promise resolves (never rejects) with this value. */
  predicate CheckThumbnailAvailability(load: ImageLoad) {
    match load
    case Loaded(width) => width > PlaceholderWidth
    case LoadError => false
  }

  /** The probe says available exactly when the image loaded wider than the placeholder. */
  lemma AvailabilityMeaning(load: ImageLoad)
    ensures CheckThumbnailAvailability(load) <==> load.Loaded? && load.width > 120
    ensures CheckThumbnailAvailability(LoadError) == false
    ensures !CheckThumbnailAvailability(Loaded(PlaceholderWidth))
  {
  }
}
